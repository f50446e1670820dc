// The loader as the source has it: mutable lists and maps, updated by loops. Each method
// takes the state where the loader specification takes it.
module Overlays {
  import opened Options
  import opened Words
  import opened Loader
  import opened LoaderRanges

  class Overlays {
    const table: Table
    const sectionAddresses: array<u32>
    var loaded: seq<Loaded>
    var funcMap: map<u32, Func>

    ghost function State(): Loader.State
      reads this, sectionAddresses
    {
      Loader.State(loaded, sectionAddresses[..], funcMap)
    }

    constructor (table: Table, sectionAddresses: array<u32>, funcMap: map<u32, Func>)
      ensures this.table == table && this.sectionAddresses == sectionAddresses
      ensures State() == Loader.State([], sectionAddresses[..], funcMap)
    {
      this.table, this.sectionAddresses := table, sectionAddresses;
      this.loaded, this.funcMap := [], funcMap;
    }

    method SetSectionAddress(index: nat, value: u32)
      modifies sectionAddresses
      ensures State() == old(State()).(addresses := SetAddress(old(State()).addresses, index, value))
    {
      if value % 4 != 0 { return; }
      if index < sectionAddresses.Length { sectionAddresses[index] := value; }
    }

    method EraseRange(base: u32, size: u32)
      modifies this`funcMap
      ensures State() == old(State()).(funcMap := RangeErase(old(funcMap), base, size))
    {
      if size == 0 { return; }
      var hi := Wrap32(base + size);
      var doomed: set<u32> := {};
      var keys := funcMap.Keys;
      while keys != {}
        invariant keys <= funcMap.Keys
        invariant doomed == set a | a in funcMap.Keys && a !in keys && base <= a < hi
        decreases keys
      {
        var a :| a in keys;
        keys := keys - {a};
        if base <= a < hi { doomed := doomed + {a}; }
      }
      funcMap := funcMap - doomed;
    }

    method LoadOverlay(i: nat, base: u32)
      requires i < |table|
      modifies this, sectionAddresses
      ensures State() == Load(table, old(State()), i, base)
    {
      for k := 0 to |table[i].funcs|
        invariant loaded == old(loaded) && sectionAddresses[..] == old(sectionAddresses[..])
        invariant funcMap == InstallAll(old(funcMap), table[i], base, k)
      {
        funcMap := Install(funcMap, table[i], base, table[i].funcs[k]);
      }
      loaded := loaded + [Loaded(base, i)];
      SetSectionAddress(table[i].index, base);
    }

    method EraseFunctions(i: nat, base: u32)
      requires i < |table|
      modifies this`funcMap
      ensures State() == old(State()).(funcMap := UninstallAll(old(funcMap), table[i], base, |table[i].funcs|))
    {
      for k := 0 to |table[i].funcs|
        invariant funcMap == UninstallAll(old(funcMap), table[i], base, k)
      {
        funcMap := Uninstall(funcMap, table[i], base, table[i].funcs[k]);
      }
    }

    // Release the list entry at position p.
    method UnloadEntry(p: nat)
      requires InTable(table, loaded) && p < |loaded|
      modifies this, sectionAddresses
      ensures State() == UnloadAt(table, old(State()), p)
    {
      var i, base := loaded[p].section, loaded[p].base;
      EraseFunctions(i, base);
      EraseRange(base, table[i].size);
      SetSectionAddress(table[i].index, table[i].link);
      loaded := loaded[..p] + loaded[p + 1..];
    }

    method UnloadByIndex(i: nat)
      requires InTable(table, loaded) && i < |table|
      modifies this, sectionAddresses
      ensures State() == Unload(table, old(State()), i)
    {
      var found := FindLoaded(loaded, i);
      if found.Some? { UnloadEntry(found.value); }
    }

    // Scan, evict the first section met, and scan again from the start.
    method EvictOverlapping(i: nat, base: u32)
      requires InTable(table, loaded) && i < |table|
      modifies this, sectionAddresses
      ensures State() == Evict(table, old(State()), i, base)
    {
      hide UnloadAt, Overlap, Meets;
      var evicted := true;
      while evicted
        invariant InTable(table, loaded)
        invariant Evict(table, State(), i, base) == Evict(table, old(State()), i, base)
        invariant !evicted ==> FirstOverlap(table, loaded, i, base).None?
        decreases |loaded|, evicted
      {
        evicted := false;
        var p := 0;
        while p < |loaded| && !Meets(table, loaded[p], i, base)
          invariant p <= |loaded|
          invariant forall q :: 0 <= q < p ==> !Meets(table, loaded[q], i, base)
        {
          p := p + 1;
        }
        FirstOverlapAt(table, loaded, i, base, p);
        if p < |loaded| {
          UnloadShrinks(table, State(), p);
          UnloadByIndex(loaded[p].section);
          evicted := true;
        }
      }
    }

    method RegisterIfNew(i: nat, base: u32)
      requires InTable(table, loaded) && i < |table|
      modifies this, sectionAddresses
      ensures State() == Register(table, old(State()), i, base)
    {
      EvictOverlapping(i, base);
      var found := FindLoaded(loaded, i);
      if found.None? {
        LoadOverlay(i, base);
      } else if loaded[found.value].base != base {
        UnloadByIndex(i);
        LoadOverlay(i, base);
      }
    }

    method RegisterCovered(lo: nat, hi: nat, rom: u32, ram: u32, size: u32)
      requires InTable(table, loaded) && hi <= |table|
      modifies this, sectionAddresses
      ensures State() == RegisterWhole(table, old(State()), lo, hi, rom, ram, size)
    {
      var it := lo;
      while it < hi
        invariant InTable(table, loaded)
        invariant RegisterWhole(table, State(), it, hi, rom, ram, size)
                  == RegisterWhole(table, old(State()), lo, hi, rom, ram, size)
      {
        if Wrap32(table[it].rom + table[it].size) <= Wrap32(rom + size) {
          RegisterIfNew(it, Wrap32(table[it].rom - rom + ram));
        }
        it := it + 1;
      }
    }

    // The section the DMA is a chunk of, `lower` being the first one at or after its address.
    method RegisterContaining(lower: nat, rom: u32, ram: u32)
      requires InTable(table, loaded) && lower <= |table|
      modifies this, sectionAddresses
      ensures State() == RegisterChunk(table, old(State()), ChunkOf(table, lower, rom), rom, ram)
    {
      hide Register, InTable;
      if lower != 0 {
        var c := lower - 1;
        if rom >= table[c].rom && rom < Wrap32(table[c].rom + table[c].size) {
          RegisterIfNew(c, Wrap32(table[c].rom - rom + ram));
        }
      }
    }

    method RegisterFirstChunk(lower: nat, rom: u32, ram: u32, size: u32)
      requires InTable(table, loaded) && lower <= |table|
      modifies this, sectionAddresses
      ensures State() == RegisterChunk(table, old(State()), FirstChunkOf(table, lower, rom, size), rom, ram)
    {
      hide Register, InTable;
      if lower != |table| && table[lower].rom == rom {
        if Wrap32(table[lower].rom + table[lower].size) > Wrap32(rom + size) {
          RegisterIfNew(lower, Wrap32(table[lower].rom - rom + ram));
        }
      }
    }

    method LoadOverlays(rom: u32, ram: u32, size: u32)
      requires InTable(table, loaded)
      modifies this, sectionAddresses
      ensures State() == Loader.LoadOverlays(table, old(State()), rom, ram, size)
    {
      hide RegisterChunk, RegisterWhole, InTable, ChunkOf, FirstChunkOf, Wrap32;
      var lower := LowerBound(table, rom);
      RegisterCovered(lower, UpperBound(table, Wrap32(rom + size)), rom, ram, size);
      RegisterContaining(lower, rom, ram);
      RegisterFirstChunk(lower, rom, ram, size);
    }

    // False where the process exits, leaving what was already released.
    method UnloadOverlays(ram: u32, size: u32) returns (ok: bool)
      requires InTable(table, loaded)
      modifies this, sectionAddresses
      ensures ok <==> UnloadRegion(table, old(State()), 0, ram, size).Some?
      ensures ok ==> State() == UnloadRegion(table, old(State()), 0, ram, size).value
    {
      var p := 0;
      while p < |loaded|
        invariant InTable(table, loaded) && p <= |loaded|
        invariant UnloadRegion(table, State(), p, ram, size) == UnloadRegion(table, old(State()), 0, ram, size)
        decreases |loaded| - p
      {
        if Touched(table, loaded[p], ram, size) {
          if Partial(table, loaded[p], ram, size) { return false; }
          UnloadEntry(p);
        } else {
          p := p + 1;
        }
      }
      return true;
    }

    method EvictPriorAtBase(keep: nat, base: u32)
      requires InTable(table, loaded)
      modifies this, sectionAddresses
      ensures State() == EvictAtBase(table, old(State()), 0, keep, base)
    {
      var p := 0;
      while p < |loaded|
        invariant InTable(table, loaded) && p <= |loaded|
        invariant EvictAtBase(table, State(), p, keep, base) == EvictAtBase(table, old(State()), 0, keep, base)
        decreases |loaded| - p
      {
        if loaded[p].base != base || loaded[p].section == keep {
          p := p + 1;
        } else {
          var i := loaded[p].section;
          EraseFunctions(i, base);
          SetSectionAddress(table[i].index, table[i].link);
          loaded := loaded[..p] + loaded[p + 1..];
        }
      }
    }

    method RegisterFragment(bound: Option<nat>, base: u32, previous: Option<(u32, u32)>)
      requires InTable(table, loaded) && (bound.Some? ==> bound.value < |table|)
      modifies this, sectionAddresses
      ensures State() == Place(table, old(State()), bound, base, previous)
    {
      EvictPriorAtBase(if bound.Some? then bound.value else |table|, base);
      if previous.Some? { EraseRange(previous.value.0, previous.value.1); }
      if bound.None? { return; }
      var i, m := bound.value, funcMap;
      for k := 0 to |table[i].funcs|
        invariant loaded == old(EvictAtBase(table, State(), 0, i, base)).loaded
        invariant sectionAddresses[..] == old(EvictAtBase(table, State(), 0, i, base)).addresses
        invariant funcMap == InstallAll(m, table[i], base, k)
      {
        funcMap := Install(funcMap, table[i], base, table[i].funcs[k]);
      }
      SetSectionAddress(table[i].index, base);
      var found := FindLoaded(loaded, i);
      if found.None? {
        loaded := loaded + [Loaded(base, i)];
      } else {
        loaded := loaded[found.value := Loaded(base, i)];
      }
    }
  }

  lemma {:induction false} FirstOverlapAt(t: Table, loaded: seq<Loaded>, i: nat, base: u32, p: nat)
    requires i < |t| && InTable(t, loaded) && p <= |loaded|
    requires forall q :: 0 <= q < p ==> !Meets(t, loaded[q], i, base)
    requires p < |loaded| ==> Meets(t, loaded[p], i, base)
    ensures FirstOverlap(t, loaded, i, base) == if p < |loaded| then Some(p) else None
    decreases |loaded|
  {
    if p > 0 { FirstOverlapAt(t, loaded[1..], i, base, p - 1); }
  }
}
