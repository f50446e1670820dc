// Over every run of the DMA entry points the loaded runtime ranges stay apart.
module LoaderRanges {
  import opened Options
  import opened Words
  import opened Loader
  import opened LoaderBooks

  ghost predicate RangesApart(t: Table, loaded: seq<Loaded>)
    requires InTable(t, loaded)
  {
    forall p, q :: 0 <= p < q < |loaded| ==>
      !Overlap(loaded[p].base, t[loaded[p].section].size, loaded[q].base, t[loaded[q].section].size)
  }

  lemma RemovedApart(t: Table, loaded: seq<Loaded>, p: nat)
    requires InTable(t, loaded) && RangesApart(t, loaded) && p < |loaded|
    ensures var loaded' := loaded[..p] + loaded[p + 1..];
            InTable(t, loaded') && RangesApart(t, loaded')
  {
    var loaded' := loaded[..p] + loaded[p + 1..];
    assert forall q :: 0 <= q < |loaded'| ==> loaded'[q] == loaded[if q < p then q else q + 1];
  }

  lemma UnloadApart(t: Table, st: State, i: nat)
    requires InTable(t, st.loaded) && RangesApart(t, st.loaded) && i < |t|
    ensures InTable(t, Unload(t, st, i).loaded) && RangesApart(t, Unload(t, st, i).loaded)
  {
    var r := FindLoaded(st.loaded, i);
    if r.Some? { RemovedApart(t, st.loaded, r.value); }
  }

  lemma {:induction false} EvictApart(t: Table, st: State, i: nat, base: u32)
    requires InTable(t, st.loaded) && RangesApart(t, st.loaded) && i < |t|
    ensures RangesApart(t, Evict(t, st, i, base).loaded)
    ensures FirstOverlap(t, Evict(t, st, i, base).loaded, i, base).None?
    decreases |st.loaded|
  {
    hide RangesApart, Meets, Overlap, UnloadAt;
    var r := FirstOverlap(t, st.loaded, i, base);
    if r.Some? {
      var k := st.loaded[r.value].section;
      UnloadApart(t, st, k);
      UnloadShrinks(t, st, r.value);
      EvictApart(t, Unload(t, st, k), i, base);
    }
  }

  lemma UnloadShrinks(t: Table, st: State, p: nat)
    requires InTable(t, st.loaded) && p < |st.loaded|
    ensures var st' := Unload(t, st, st.loaded[p].section);
            InTable(t, st'.loaded) && |st'.loaded| < |st.loaded|
  {}

  // Loading where nothing else is met, and the section itself is not on the list.
  lemma LoadApart(t: Table, st: State, i: nat, base: u32)
    requires InTable(t, st.loaded) && RangesApart(t, st.loaded) && i < |t|
    requires FirstOverlap(t, st.loaded, i, base).None? && !IsLoaded(st.loaded, i)
    ensures RangesApart(t, Load(t, st, i, base).loaded)
  {
    var st' := Load(t, st, i, base);
    forall p | 0 <= p < |st.loaded|
      ensures !Overlap(st.loaded[p].base, t[st.loaded[p].section].size, base, t[i].size)
    {
      assert !Meets(t, st.loaded[p], i, base) && st.loaded[p].section != i;
    }
    assert forall p :: 0 <= p < |st.loaded| ==> st'.loaded[p] == st.loaded[p];
  }

  // Unloading leaves a clear range clear.
  lemma StillClear(t: Table, st: State, i: nat, base: u32)
    requires InTable(t, st.loaded) && i < |t| && FirstOverlap(t, st.loaded, i, base).None?
    ensures InTable(t, Unload(t, st, i).loaded) && FirstOverlap(t, Unload(t, st, i).loaded, i, base).None?
  {
    var loaded' := Unload(t, st, i).loaded;
    var r := FindLoaded(st.loaded, i);
    if r.Some? {
      assert forall q :: 0 <= q < |loaded'| ==> loaded'[q] == st.loaded[if q < r.value then q else q + 1];
      assert forall q :: 0 <= q < |loaded'| ==> !Meets(t, loaded'[q], i, base);
    }
  }

  lemma NotLoaded(t: Table, st: State, i: nat)
    requires InTable(t, st.loaded) && Unique(st.loaded) && i < |t|
    ensures !IsLoaded(Unload(t, st, i).loaded, i)
  {
    var loaded' := Unload(t, st, i).loaded;
    var r := FindLoaded(st.loaded, i);
    if r.Some? {
      assert forall q :: 0 <= q < |loaded'| ==> loaded'[q] == st.loaded[if q < r.value then q else q + 1];
    }
  }

  lemma RegisterApart(t: Table, st: State, i: nat, base: u32)
    requires TableOk(t) && Books(t, st) && RangesApart(t, st.loaded) && i < |t|
    ensures RangesApart(t, Register(t, st, i, base).loaded)
    ensures FirstOverlap(t, Register(t, st, i, base).loaded, i, base).None?
  {
    var st1 := Evict(t, st, i, base);
    EvictApart(t, st, i, base);
    EvictBooks(t, st, i, base);
    var r := FindLoaded(st1.loaded, i);
    if r.None? {
      LoadApart(t, st1, i, base);
      SelfClear(t, st1, i, base);
    } else if st1.loaded[r.value].base != base {
      UnloadApart(t, st1, i);
      StillClear(t, st1, i, base);
      NotLoaded(t, st1, i);
      LoadApart(t, Unload(t, st1, i), i, base);
      SelfClear(t, Unload(t, st1, i), i, base);
    }
  }

  lemma SelfClear(t: Table, st: State, i: nat, base: u32)
    requires InTable(t, st.loaded) && i < |t| && FirstOverlap(t, st.loaded, i, base).None?
    ensures FirstOverlap(t, Load(t, st, i, base).loaded, i, base).None?
  {
    var loaded' := Load(t, st, i, base).loaded;
    assert forall p :: 0 <= p < |loaded'| ==> !Meets(t, loaded'[p], i, base);
  }

  ghost predicate Tidy(t: Table, st: State) { Books(t, st) && RangesApart(t, st.loaded) }

  lemma RegisterChunkTidy(t: Table, st: State, chunk: Option<nat>, rom: u32, ram: u32)
    requires TableOk(t) && Tidy(t, st) && SameAlignment(rom, ram)
    requires InTable(t, st.loaded) && (chunk.Some? ==> chunk.value < |t|)
    ensures Tidy(t, RegisterChunk(t, st, chunk, rom, ram))
  {
    hide *;
    RegisterChunkIs(t, st, chunk, rom, ram);
    if chunk.Some? {
      AlignedAt(t, chunk.value, rom, ram);
      RegisterTidy(t, st, chunk.value, Wrap32(t[chunk.value].rom - rom + ram));
    }
  }

  lemma RegisterTidy(t: Table, st: State, i: nat, base: u32)
    requires TableOk(t) && Tidy(t, st) && i < |t| && base % 4 == 0
    ensures Tidy(t, Register(t, st, i, base))
  {
    RegisterBooks(t, st, i, base);
    RegisterApart(t, st, i, base);
  }

  lemma {:induction false} RegisterWholeTidy(t: Table, st: State, lo: nat, hi: nat, rom: u32, ram: u32, size: u32)
    requires TableOk(t) && Tidy(t, st) && hi <= |t| && SameAlignment(rom, ram) && InTable(t, st.loaded)
    ensures Tidy(t, RegisterWhole(t, st, lo, hi, rom, ram, size))
    decreases hi - lo
  {
    hide Tidy, TableOk, Register, SameAlignment, InTable, Wrap32;
    if lo < hi {
      var st1 := RegisterWholeStep(t, st, lo, hi, rom, ram, size);
      RegisterChunkTidy(t, st, Some(lo), rom, ram);
      RegisterWholeTidy(t, st1, lo + 1, hi, rom, ram, size);
    }
  }

  lemma LoadOverlaysTidy(t: Table, st: State, rom: u32, ram: u32, size: u32)
    requires TableOk(t) && Tidy(t, st) && SameAlignment(rom, ram) && InTable(t, st.loaded)
    ensures Tidy(t, LoadOverlays(t, st, rom, ram, size))
  {
    hide Tidy, TableOk, RegisterWhole, RegisterChunk, SameAlignment, Wrap32, InTable;
    var k := LowerBound(t, rom);
    var hi := UpperBound(t, Wrap32(rom + size));
    var st1 := RegisterWhole(t, st, k, hi, rom, ram, size);
    RegisterWholeTidy(t, st, k, hi, rom, ram, size);
    RegisterChunkTidy(t, st1, ChunkOf(t, k, rom), rom, ram);
    var st2 := RegisterChunk(t, st1, ChunkOf(t, k, rom), rom, ram);
    RegisterChunkTidy(t, st2, FirstChunkOf(t, k, rom, size), rom, ram);
  }

  lemma {:induction false} UnloadRegionApart(t: Table, st: State, p: nat, ram: u32, size: u32)
    requires InTable(t, st.loaded) && RangesApart(t, st.loaded) && p <= |st.loaded|
    ensures var r := UnloadRegion(t, st, p, ram, size); r.Some? ==> RangesApart(t, r.value.loaded)
    decreases |st.loaded| - p
  {
    hide RangesApart, Touched, Partial;
    if p < |st.loaded| {
      if !Touched(t, st.loaded[p], ram, size) {
        UnloadRegionApart(t, st, p + 1, ram, size);
      } else if !Partial(t, st.loaded[p], ram, size) {
        RemovedApart(t, st.loaded, p);
        UnloadRegionApart(t, UnloadAt(t, st, p), p, ram, size);
      }
    }
  }

  // Whatever the link ranges are, over every run of DMA loads and unloads each section has
  // one entry, no two loaded ranges overlap and the address table is right.
  lemma {:induction false} RunTidy(t: Table, st: State, ops: seq<Op>)
    requires TableOk(t) && Tidy(t, st) && InTable(t, st.loaded) && OpsInTable(t, ops)
    requires forall op :: op in ops ==> Aligned(op) && !op.Fragment?
    ensures var r := Run(t, st, ops); r.Some? ==> Tidy(t, r.value)
    decreases |ops|
  {
    hide TableOk, Books, RangesApart, InTable, SameAlignment, LoadOverlays, Unload, UnloadRegion, Place;
    if ops != [] {
      var op := ops[0];
      assert op in ops && forall o :: o in ops[1..] ==> o in ops;
      if op.Dma? {
        LoadOverlaysTidy(t, st, op.rom, op.ram, op.size);
      } else if op.UnloadSection? {
        UnloadBooks(t, st, op.section);
        UnloadApart(t, st, op.section);
      } else {
        UnloadRegionBooks(t, st, 0, op.ram, op.size);
        UnloadRegionApart(t, st, 0, op.ram, op.size);
      }
      var r := Step(t, st, op);
      if r.Some? { RunTidy(t, r.value, ops[1..]); }
    }
  }
}
