// Streaming a section in by chunks is one load of the whole section, and a region unload
// exits exactly when it would cut a section.
module LoaderStreaming {
  import opened Options
  import opened Words
  import opened Loader
  import opened LoaderBooks
  import opened LoaderRanges

  // --- Streaming ----------------------------------------------------------------------------------

  // Sections are non-empty, in ROM order, apart, and inside the 32-bit ROM address space.
  ghost predicate RomTable(t: Table) {
    && (forall i :: 0 <= i < |t| ==> t[i].size > 0 && t[i].rom + t[i].size < TWO32)
    && (forall i, j :: 0 <= i < j < |t| ==> t[i].rom + t[i].size <= t[j].rom)
  }

  predicate Inside(t: Table, i: nat, off: nat, size: nat)
    requires i < |t|
  {
    size > 0 && off + size <= t[i].size
  }

  // A DMA of any part of section i registers that section and no other, at the base the
  // part implies.
  lemma ChunkIsRegister(t: Table, st: State, i: nat, off: nat, size: nat, base: u32)
    requires RomTable(t) && InTable(t, st.loaded) && i < |t| && Inside(t, i, off, size)
    requires t[i].rom + t[i].size < TWO32
    ensures LoadOverlays(t, st, t[i].rom + off, Wrap32(base + off), size) == Register(t, st, i, base)
  {
    hide RomTable, InTable, Register, RegisterWhole, ChunkOf, FirstChunkOf, LowerBound, UpperBound, Wrap32;
    var k := LowerBound(t, t[i].rom + off);
    WhereChunkLies(t, i, off, k);
    ImpliedBase(t[i].rom, off, base);
    WrapSmall(t[i].rom + off + size);
    ChunkPart(t, i, off, size, k);
    if off == 0 && size == t[i].size {
      WrapSmall(base);
      WholeSection(t, st, i, base);
    } else {
      PartOfSection(t, st, i, off, size, base, k);
    }
  }

  lemma WrapSmall(x: nat)
    requires x < TWO32
    ensures Wrap32(x) == x
  {}

  // The DMA that covers section i covers no section after it.
  lemma WholeSection(t: Table, st: State, i: nat, base: u32)
    requires RomTable(t) && InTable(t, st.loaded) && i < |t| && t[i].rom + t[i].size < TWO32
    ensures RegisterWhole(t, st, i, UpperBound(t, t[i].rom + t[i].size), t[i].rom, base, t[i].size)
            == Register(t, st, i, base)
  {
    hide *;
    UpperAfter(t, i);
    SectionsAfter(t, i);
    FirstWhole(t, st, i, UpperBound(t, t[i].rom + t[i].size), base);
    NoneFit(t, Register(t, st, i, base), i + 1, UpperBound(t, t[i].rom + t[i].size), t[i].rom, base, t[i].size);
  }

  lemma UpperAfter(t: Table, i: nat)
    requires RomTable(t) && i < |t|
    ensures i < UpperBound(t, t[i].rom + t[i].size) <= |t|
  {}

  lemma FirstWhole(t: Table, st: State, i: nat, hi: nat, base: u32)
    requires InTable(t, st.loaded) && i < hi <= |t|
    ensures RegisterWhole(t, st, i, hi, t[i].rom, base, t[i].size)
            == RegisterWhole(t, Register(t, st, i, base), i + 1, hi, t[i].rom, base, t[i].size)
  {
    hide Register, InTable;
    assert Wrap32(t[i].rom - t[i].rom + base) == base;
  }

  lemma SectionsAfter(t: Table, i: nat)
    requires RomTable(t) && i < |t|
    ensures forall j :: i < j < |t| ==> t[j].rom + t[j].size > t[i].rom + t[i].size
  {}

  // A DMA of less than section i covers no section.
  lemma PartOfSection(t: Table, st: State, i: nat, off: nat, size: nat, base: u32, k: nat)
    requires RomTable(t) && InTable(t, st.loaded) && i < |t| && Inside(t, i, off, size) && t[i].rom + t[i].size < TWO32
    requires !(off == 0 && size == t[i].size) && k == if off == 0 then i else i + 1
    ensures RegisterWhole(t, st, k, UpperBound(t, t[i].rom + off + size), t[i].rom + off, Wrap32(base + off), size) == st
  {
    SectionsAfter(t, i);
    hide Register, InTable, RomTable;
    NoneFit(t, st, k, UpperBound(t, t[i].rom + off + size), t[i].rom + off, Wrap32(base + off), size);
  }

  // The section it is a chunk of.
  lemma ChunkPart(t: Table, i: nat, off: nat, size: nat, k: nat)
    requires RomTable(t) && i < |t| && Inside(t, i, off, size) && t[i].rom + off + size < TWO32
    requires k <= |t| && k == if off == 0 then i else i + 1
    ensures ChunkOf(t, k, t[i].rom + off) == if off == 0 then None else Some(i)
    ensures FirstChunkOf(t, k, t[i].rom + off, size) == if off == 0 && size < t[i].size then Some(i) else None
  {
    assert t[i].rom + t[i].size < TWO32;
    if off == 0 && k > 0 { assert t[k - 1].rom + t[k - 1].size <= t[i].rom; }
    if off > 0 && k < |t| { assert t[i].rom + t[i].size <= t[k].rom; }
  }

  lemma WhereChunkLies(t: Table, i: nat, off: nat, k: nat)
    requires RomTable(t) && i < |t| && off < t[i].size && t[i].rom + off < TWO32 && k == LowerBound(t, t[i].rom + off)
    ensures k == if off == 0 then i else i + 1
  {
    assert forall j :: 0 <= j < i ==> t[j].size > 0 && t[j].rom + t[j].size <= t[i].rom;
    assert i + 1 < |t| ==> t[i].rom + t[i].size <= t[i + 1].rom;
  }

  lemma ImpliedBase(rom: nat, off: nat, base: u32)
    ensures Wrap32(rom - (rom + off) + Wrap32(base + off)) == base
  {
    var v := base + off;
    assert v == v / TWO32 * TWO32 + Wrap32(v);
    assert rom - (rom + off) + Wrap32(v) == base - v / TWO32 * TWO32;
    WrapLess(base, v / TWO32);
  }

  lemma WrapLess(base: u32, n: nat)
    ensures Wrap32(base - n * TWO32) == base
  {}

  // No section from lo on ends inside the DMA.
  lemma {:induction false} NoneFit(t: Table, st: State, lo: nat, hi: nat, rom: u32, ram: u32, size: u32)
    requires RomTable(t) && InTable(t, st.loaded) && hi <= |t| && rom + size < TWO32
    requires forall j :: lo <= j < hi ==> t[j].rom + t[j].size > rom + size
    ensures RegisterWhole(t, st, lo, hi, rom, ram, size) == st
    decreases hi - lo
  {
    hide Register, InTable;
    if lo < hi {
      assert t[lo].rom + t[lo].size < TWO32;
      NoneFit(t, st, lo + 1, hi, rom, ram, size);
    }
  }

  // A section already in place is left alone.
  lemma RegisterAgain(t: Table, st: State, i: nat, base: u32)
    requires TableOk(t) && Books(t, st) && i < |t| && base % 4 == 0
    ensures Register(t, Register(t, st, i, base), i, base) == Register(t, st, i, base)
  {
    var st' := Register(t, st, i, base);
    RegisterBooks(t, st, i, base);
    RegisteredClear(t, st, i, base);
    var p :| 0 <= p < |st'.loaded| && st'.loaded[p] == Loaded(base, i);
    var r := FindLoaded(st'.loaded, i);
    assert r.Some? && r.value == p;
  }

  lemma RegisteredClear(t: Table, st: State, i: nat, base: u32)
    requires TableOk(t) && Books(t, st) && i < |t|
    ensures FirstOverlap(t, Register(t, st, i, base).loaded, i, base).None?
  {
    var st1 := Evict(t, st, i, base);
    EvictBooks(t, st, i, base);
    var r := FindLoaded(st1.loaded, i);
    if r.None? {
      SelfClear(t, st1, i, base);
    } else if st1.loaded[r.value].base != base {
      StillClear(t, st1, i, base);
      SelfClear(t, Unload(t, st1, i), i, base);
    }
  }

  function Total(sizes: seq<nat>): nat { if sizes == [] then 0 else sizes[0] + Total(sizes[1..]) }

  // Consecutive DMAs of the given sizes, from offset off of section s on, towards base.
  function Stream(s: Section, base: u32, off: nat, sizes: seq<nat>): (ops: seq<Op>)
    requires s.rom + off + Total(sizes) < TWO32
    decreases |sizes|
  {
    if sizes == [] then []
    else [Dma(s.rom + off, Wrap32(base + off), sizes[0])] + Stream(s, base, off + sizes[0], sizes[1..])
  }

  lemma {:induction false} StreamRuns(t: Table, st: State, i: nat, base: u32, off: nat, sizes: seq<nat>)
    requires RomTable(t) && TableOk(t) && Books(t, st) && InTable(t, st.loaded) && i < |t| && base % 4 == 0
    requires sizes != [] && (forall k :: 0 <= k < |sizes| ==> sizes[k] > 0) && off + Total(sizes) <= t[i].size
    requires t[i].rom + t[i].size < TWO32
    ensures var ops := Stream(t[i], base, off, sizes);
            OpsInTable(t, ops) && Run(t, st, ops) == Some(Register(t, st, i, base))
    decreases |sizes|
  {
    hide Books, TableOk, RomTable, Register, InTable, LoadOverlays, Wrap32, Run, OpsInTable;
    var ops, st' := Stream(t[i], base, off, sizes), Register(t, st, i, base);
    ChunkIsRegister(t, st, i, off, sizes[0], base);
    RegisterBooks(t, st, i, base);
    if |sizes| == 1 {
      StreamEnd(t, st, st', i, base, off, sizes);
    } else {
      StreamRuns(t, st', i, base, off + sizes[0], sizes[1..]);
      RegisterAgain(t, st, i, base);
      StreamStep(t, st, st', i, base, off, sizes);
    }
  }

  lemma StreamStep(t: Table, st: State, st': State, i: nat, base: u32, off: nat, sizes: seq<nat>)
    requires InTable(t, st.loaded) && i < |t| && |sizes| > 0 && t[i].rom + off + Total(sizes) < TWO32
    requires InTable(t, st'.loaded) && LoadOverlays(t, st, t[i].rom + off, Wrap32(base + off), sizes[0]) == st'
    requires OpsInTable(t, Stream(t[i], base, off + sizes[0], sizes[1..]))
    ensures OpsInTable(t, Stream(t[i], base, off, sizes))
    ensures Run(t, st, Stream(t[i], base, off, sizes)) == Run(t, st', Stream(t[i], base, off + sizes[0], sizes[1..]))
  {
    hide InTable, LoadOverlays, Wrap32;
    var ops, rest := Stream(t[i], base, off, sizes), Stream(t[i], base, off + sizes[0], sizes[1..]);
    assert ops[1..] == rest;
    assert forall op :: op in ops ==> op == ops[0] || op in rest;
    assert Step(t, st, ops[0]) == Some(st');
  }

  lemma StreamEnd(t: Table, st: State, st': State, i: nat, base: u32, off: nat, sizes: seq<nat>)
    requires InTable(t, st.loaded) && i < |t| && |sizes| == 1 && t[i].rom + off + Total(sizes) < TWO32
    requires InTable(t, st'.loaded) && LoadOverlays(t, st, t[i].rom + off, Wrap32(base + off), sizes[0]) == st'
    ensures OpsInTable(t, Stream(t[i], base, off, sizes))
    ensures Run(t, st, Stream(t[i], base, off, sizes)) == Some(st')
  {
    hide InTable, LoadOverlays, Wrap32;
    assert Stream(t[i], base, off + sizes[0], sizes[1..]) == [];
    StreamStep(t, st, st', i, base, off, sizes);
  }

  // Streaming a whole section in, in any number of consecutive chunks, ends in the same
  // loader state as one DMA of the section.
  lemma StreamIsOneLoad(t: Table, st: State, i: nat, base: u32, sizes: seq<nat>)
    requires RomTable(t) && TableOk(t) && Books(t, st) && InTable(t, st.loaded) && i < |t| && base % 4 == 0
    requires (forall k :: 0 <= k < |sizes| ==> sizes[k] > 0) && Total(sizes) == t[i].size
    requires t[i].rom + t[i].size < TWO32 && t[i].size > 0
    ensures var ops := Stream(t[i], base, 0, sizes);
            OpsInTable(t, ops) && Run(t, st, ops) == Some(LoadOverlays(t, st, t[i].rom, base, t[i].size))
  {
    hide Books, TableOk, RomTable, Register, InTable, LoadOverlays, Run, OpsInTable;
    StreamRuns(t, st, i, base, 0, sizes);
    ChunkIsRegister(t, st, i, 0, t[i].size, base);
    assert Wrap32(base + 0) == base;
  }

  // --- Region unload ----------------------------------------------------------------------------

  // The list without the sections the region touches.
  function Untouched(t: Table, loaded: seq<Loaded>, ram: u32, size: u32): (r: seq<Loaded>)
    requires InTable(t, loaded)
  {
    if loaded == [] then []
    else (if Touched(t, loaded[0], ram, size) then [] else [loaded[0]]) + Untouched(t, loaded[1..], ram, size)
  }

  // The process exits exactly when some touched section is covered only in part; otherwise
  // every touched section is released and the others keep their order.
  lemma {:induction false} UnloadRegionIs(t: Table, st: State, p: nat, ram: u32, size: u32)
    requires InTable(t, st.loaded) && p <= |st.loaded|
    ensures var r := UnloadRegion(t, st, p, ram, size);
            && (r.None? <==> exists q :: p <= q < |st.loaded| && Touched(t, st.loaded[q], ram, size)
                                         && Partial(t, st.loaded[q], ram, size))
            && (r.Some? ==> r.value.loaded == st.loaded[..p] + Untouched(t, st.loaded[p..], ram, size))
    decreases |st.loaded| - p
  {
    hide Touched, Partial, UninstallAll, RangeErase, SetAddress, Untouched;
    if p == |st.loaded| {
      assert st.loaded[..p] + [] == st.loaded && st.loaded[p..] == [];
      NothingLeft(t, ram, size);
    } else {
      UntouchedFrom(t, st.loaded, p, ram, size);
      if !Touched(t, st.loaded[p], ram, size) {
        UnloadRegionIs(t, st, p + 1, ram, size);
        assert st.loaded[..p + 1] == st.loaded[..p] + [st.loaded[p]];
      } else if !Partial(t, st.loaded[p], ram, size) {
        UnloadRegionIs(t, UnloadAt(t, st, p), p, ram, size);
        Removed(st.loaded, UnloadAt(t, st, p).loaded, p);
      }
    }
  }

  lemma NothingLeft(t: Table, ram: u32, size: u32)
    ensures Untouched(t, [], ram, size) == []
  {}

  lemma UntouchedFrom(t: Table, loaded: seq<Loaded>, p: nat, ram: u32, size: u32)
    requires InTable(t, loaded) && p < |loaded|
    ensures Untouched(t, loaded[p..], ram, size) ==
            (if Touched(t, loaded[p], ram, size) then [] else [loaded[p]]) + Untouched(t, loaded[p + 1..], ram, size)
  {
    hide Touched;
    assert loaded[p..][0] == loaded[p] && loaded[p..][1..] == loaded[p + 1..];
  }

  lemma Removed(loaded: seq<Loaded>, loaded': seq<Loaded>, p: nat)
    requires p < |loaded| && loaded' == loaded[..p] + loaded[p + 1..]
    ensures loaded'[..p] == loaded[..p] && loaded'[p..] == loaded[p + 1..]
    ensures forall q :: p + 1 <= q < |loaded| ==> loaded[q] == loaded'[q - 1]
    ensures forall q :: p <= q < |loaded'| ==> loaded'[q] == loaded[q + 1]
  {}

  // A region that ends exactly at a section's base counts as touching it, and exits.
  lemma EndingAtABaseExits(t: Table, st: State, q: nat, ram: u32, size: u32)
    requires InTable(t, st.loaded) && q < |st.loaded| && ram + size == st.loaded[q].base
    requires t[st.loaded[q].section].size > 0 && st.loaded[q].base + t[st.loaded[q].section].size < TWO32
    ensures UnloadRegion(t, st, 0, ram, size).None?
  {
    assert Touched(t, st.loaded[q], ram, size) && Partial(t, st.loaded[q], ram, size);
    hide Touched, Partial, InTable, UnloadRegion;
    UnloadRegionIs(t, st, 0, ram, size);
  }
}
