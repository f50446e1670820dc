// The loader's bookkeeping: at most one list entry a section, and an address table that
// holds the runtime base of a loaded section and the link base of any other, across every
// entry point.
module LoaderBooks {
  import opened Options
  import opened Words
  import opened Loader

  // Sections have their own slots in the address table and word-aligned addresses.
  ghost predicate TableOk(t: Table) {
    && (forall i :: 0 <= i < |t| ==> t[i].link % 4 == 0 && t[i].rom % 4 == 0)
    && (forall i, j :: 0 <= i < j < |t| ==> t[i].index != t[j].index)
  }

  ghost predicate Unique(loaded: seq<Loaded>) {
    forall p, q :: 0 <= p < q < |loaded| ==> loaded[p].section != loaded[q].section
  }

  ghost predicate IsLoaded(loaded: seq<Loaded>, i: nat) {
    exists p :: 0 <= p < |loaded| && loaded[p].section == i
  }

  ghost predicate Books(t: Table, st: State) {
    && InTable(t, st.loaded) && Unique(st.loaded)
    && (forall i :: 0 <= i < |t| ==> t[i].index < |st.addresses|)
    && (forall p :: 0 <= p < |st.loaded| ==>
          st.loaded[p].base % 4 == 0 && st.addresses[t[st.loaded[p].section].index] == st.loaded[p].base)
    && (forall i :: 0 <= i < |t| && !IsLoaded(st.loaded, i) ==> st.addresses[t[i].index] == t[i].link)
  }

  // --- Removing and adding one entry ---------------------------------------------------

  lemma RemovedEntries(t: Table, loaded: seq<Loaded>, p: nat)
    requires InTable(t, loaded) && Unique(loaded) && p < |loaded|
    ensures var loaded' := loaded[..p] + loaded[p + 1..];
            && InTable(t, loaded') && Unique(loaded') && !IsLoaded(loaded', loaded[p].section)
            && (forall q :: 0 <= q < |loaded'| ==> loaded'[q] == loaded[if q < p then q else q + 1])
  {}

  lemma StillLoaded(loaded: seq<Loaded>, p: nat, i: nat)
    requires p < |loaded| && i != loaded[p].section && IsLoaded(loaded, i)
    ensures IsLoaded(loaded[..p] + loaded[p + 1..], i)
  {
    var q :| 0 <= q < |loaded| && loaded[q].section == i;
    assert (loaded[..p] + loaded[p + 1..])[if q < p then q else q - 1].section == i;
  }

  lemma RemovedBooks(t: Table, st: State, p: nat, st': State)
    requires TableOk(t) && Books(t, st) && p < |st.loaded|
    requires st'.loaded == st.loaded[..p] + st.loaded[p + 1..]
    requires var s := t[st.loaded[p].section]; st'.addresses == SetAddress(st.addresses, s.index, s.link)
    ensures Books(t, st') && !IsLoaded(st'.loaded, st.loaded[p].section)
  {
    hide IsLoaded, Unique;
    RemovedEntries(t, st.loaded, p);
    forall i | i != st.loaded[p].section && IsLoaded(st.loaded, i) ensures IsLoaded(st'.loaded, i) {
      StillLoaded(st.loaded, p, i);
    }
    forall q | 0 <= q < |st'.loaded| ensures st'.loaded[q].section != st.loaded[p].section {
      Listed(st'.loaded, q);
    }
  }

  lemma Listed(loaded: seq<Loaded>, q: nat)
    requires q < |loaded|
    ensures IsLoaded(loaded, loaded[q].section)
  {}

  lemma AddedBooks(t: Table, st: State, i: nat, base: u32, st': State)
    requires TableOk(t) && Books(t, st) && i < |t| && !IsLoaded(st.loaded, i) && base % 4 == 0
    requires st'.loaded == st.loaded + [Loaded(base, i)]
    requires st'.addresses == SetAddress(st.addresses, t[i].index, base)
    ensures Books(t, st')
  {
    assert st'.loaded[|st.loaded|] == Loaded(base, i);
    assert forall q :: 0 <= q < |st.loaded| ==> st'.loaded[q] == st.loaded[q];
  }

  // A misaligned base breaks the table: the write is rejected and the old value stays.
  lemma MisalignedLoad(t: Table, st: State, i: nat, base: u32)
    requires TableOk(t) && Books(t, st) && i < |t| && !IsLoaded(st.loaded, i)
    ensures Load(t, st, i, base).addresses[t[i].index] == base <==> base % 4 == 0
  {}

  lemma UnloadBooks(t: Table, st: State, i: nat)
    requires TableOk(t) && Books(t, st) && i < |t|
    ensures Books(t, Unload(t, st, i)) && !IsLoaded(Unload(t, st, i).loaded, i)
    ensures |Unload(t, st, i).loaded| == |st.loaded| - if IsLoaded(st.loaded, i) then 1 else 0
  {
    var r := FindLoaded(st.loaded, i);
    if r.Some? { RemovedBooks(t, st, r.value, UnloadAt(t, st, r.value)); }
  }

  // --- DMA entry points ----------------------------------------------------------------

  lemma {:induction false} EvictBooks(t: Table, st: State, i: nat, base: u32)
    requires TableOk(t) && Books(t, st) && i < |t|
    ensures Books(t, Evict(t, st, i, base))
    ensures FirstOverlap(t, Evict(t, st, i, base).loaded, i, base).None?
    decreases |st.loaded|
  {
    var r := FirstOverlap(t, st.loaded, i, base);
    if r.Some? {
      var k := st.loaded[r.value].section;
      UnloadBooks(t, st, k);
      assert IsLoaded(st.loaded, k);
      EvictBooks(t, Unload(t, st, k), i, base);
    }
  }

  lemma RegisterBooks(t: Table, st: State, i: nat, base: u32)
    requires TableOk(t) && Books(t, st) && i < |t| && base % 4 == 0
    ensures Books(t, Register(t, st, i, base)) && Loaded(base, i) in Register(t, st, i, base).loaded
  {
    var st1 := Evict(t, st, i, base);
    EvictBooks(t, st, i, base);
    var r := FindLoaded(st1.loaded, i);
    if r.None? {
      AddedBooks(t, st1, i, base, Load(t, st1, i, base));
      assert Load(t, st1, i, base).loaded[|st1.loaded|] == Loaded(base, i);
    } else if st1.loaded[r.value].base != base {
      UnloadBooks(t, st1, i);
      var st2 := Unload(t, st1, i);
      AddedBooks(t, st2, i, base, Load(t, st2, i, base));
      assert Load(t, st2, i, base).loaded[|st2.loaded|] == Loaded(base, i);
    }
  }

  predicate SameAlignment(rom: u32, ram: u32) { (ram - rom) % 4 == 0 }

  lemma AlignedBase(x: u32, rom: u32, ram: u32)
    requires x % 4 == 0 && SameAlignment(rom, ram)
    ensures Wrap32(x - rom + ram) % 4 == 0
  {
    var v := x - rom + ram;
    assert v % 4 == 0 && v == v / TWO32 * TWO32 + Wrap32(v);
  }

  lemma AlignedAt(t: Table, i: nat, rom: u32, ram: u32)
    requires TableOk(t) && SameAlignment(rom, ram) && i < |t|
    ensures Wrap32(t[i].rom - rom + ram) % 4 == 0
  {
    AlignedBase(t[i].rom, rom, ram);
  }

  lemma RegisterChunkIs(t: Table, st: State, chunk: Option<nat>, rom: u32, ram: u32)
    requires InTable(t, st.loaded) && (chunk.Some? ==> chunk.value < |t|)
    ensures RegisterChunk(t, st, chunk, rom, ram) ==
            if chunk.Some? then Register(t, st, chunk.value, Wrap32(t[chunk.value].rom - rom + ram)) else st
  {}

  lemma RegisterChunkBooks(t: Table, st: State, chunk: Option<nat>, rom: u32, ram: u32)
    requires TableOk(t) && Books(t, st) && SameAlignment(rom, ram)
    requires InTable(t, st.loaded) && (chunk.Some? ==> chunk.value < |t|)
    ensures Books(t, RegisterChunk(t, st, chunk, rom, ram))
  {
    hide *;
    RegisterChunkIs(t, st, chunk, rom, ram);
    if chunk.Some? {
      AlignedAt(t, chunk.value, rom, ram);
      RegisterBooks(t, st, chunk.value, Wrap32(t[chunk.value].rom - rom + ram));
    }
  }

  lemma RegisterWholeStep(t: Table, st: State, lo: nat, hi: nat, rom: u32, ram: u32, size: u32) returns (st1: State)
    requires lo < hi <= |t| && InTable(t, st.loaded)
    ensures InTable(t, st1.loaded)
    ensures st1 == st || (st1 == RegisterChunk(t, st, Some(lo), rom, ram) &&
                          Wrap32(t[lo].rom + t[lo].size) <= Wrap32(rom + size))
    ensures RegisterWhole(t, st, lo, hi, rom, ram, size) == RegisterWhole(t, st1, lo + 1, hi, rom, ram, size)
  {
    hide Register, InTable, Wrap32;
    st1 := if Wrap32(t[lo].rom + t[lo].size) > Wrap32(rom + size) then st else RegisterChunk(t, st, Some(lo), rom, ram);
  }

  lemma {:induction false} RegisterWholeBooks(t: Table, st: State, lo: nat, hi: nat, rom: u32, ram: u32, size: u32)
    requires TableOk(t) && Books(t, st) && hi <= |t| && SameAlignment(rom, ram)
    requires InTable(t, st.loaded)
    ensures Books(t, RegisterWhole(t, st, lo, hi, rom, ram, size))
    decreases hi - lo
  {
    hide Books, TableOk, Register, SameAlignment, InTable, Wrap32;
    if lo < hi {
      var st1 := RegisterWholeStep(t, st, lo, hi, rom, ram, size);
      RegisterChunkBooks(t, st, Some(lo), rom, ram);
      RegisterWholeBooks(t, st1, lo + 1, hi, rom, ram, size);
    }
  }

  lemma LoadOverlaysBooks(t: Table, st: State, rom: u32, ram: u32, size: u32)
    requires TableOk(t) && Books(t, st) && SameAlignment(rom, ram)
    ensures Books(t, LoadOverlays(t, st, rom, ram, size))
  {
    assert InTable(t, st.loaded);
    hide Books, TableOk, RegisterWhole, RegisterChunk, SameAlignment, Wrap32;
    var k := LowerBound(t, rom);
    var hi := UpperBound(t, Wrap32(rom + size));
    var st1 := RegisterWhole(t, st, k, hi, rom, ram, size);
    RegisterWholeBooks(t, st, k, hi, rom, ram, size);
    RegisterChunkBooks(t, st1, ChunkOf(t, k, rom), rom, ram);
    var st2 := RegisterChunk(t, st1, ChunkOf(t, k, rom), rom, ram);
    RegisterChunkBooks(t, st2, FirstChunkOf(t, k, rom, size), rom, ram);
  }

  // --- Region unload ---------------------------------------------------------------------

  lemma {:induction false} UnloadRegionBooks(t: Table, st: State, p: nat, ram: u32, size: u32)
    requires TableOk(t) && Books(t, st) && p <= |st.loaded|
    ensures var r := UnloadRegion(t, st, p, ram, size); r.Some? ==> Books(t, r.value)
    decreases |st.loaded| - p
  {
    if p < |st.loaded| {
      if !Touched(t, st.loaded[p], ram, size) {
        UnloadRegionBooks(t, st, p + 1, ram, size);
      } else if !Partial(t, st.loaded[p], ram, size) {
        RemovedBooks(t, st, p, UnloadAt(t, st, p));
        UnloadRegionBooks(t, UnloadAt(t, st, p), p, ram, size);
      }
    }
  }

  // --- Fragments ---------------------------------------------------------------------------

  lemma {:induction false} EvictAtBaseBooks(t: Table, st: State, p: nat, keep: nat, base: u32)
    requires TableOk(t) && Books(t, st) && p <= |st.loaded|
    ensures Books(t, EvictAtBase(t, st, p, keep, base))
    decreases |st.loaded| - p
  {
    if p < |st.loaded| {
      if st.loaded[p].base != base || st.loaded[p].section == keep {
        EvictAtBaseBooks(t, st, p + 1, keep, base);
      } else {
        var s := t[st.loaded[p].section];
        var st' := State(st.loaded[..p] + st.loaded[p + 1..], SetAddress(st.addresses, s.index, s.link),
                         UninstallAll(st.funcMap, s, base, |s.funcs|));
        RemovedBooks(t, st, p, st');
        EvictAtBaseBooks(t, st', p, keep, base);
      }
    }
  }

  lemma PlaceBooks(t: Table, st: State, i: Option<nat>, base: u32, previous: Option<(u32, u32)>)
    requires TableOk(t) && Books(t, st) && (i.Some? ==> i.value < |t|) && base % 4 == 0
    ensures Books(t, Place(t, st, i, base, previous))
  {
    var keep := if i.Some? then i.value else |t|;
    var st1, st' := EvictAtBase(t, st, 0, keep, base), Place(t, st, i, base, previous);
    EvictAtBaseBooks(t, st, 0, keep, base);
    if i.Some? {
      var r := FindLoaded(st1.loaded, keep);
      if r.None? {
        AddedBooks(t, st1, keep, base, st');
      } else {
        MovedBooks(t, st1, r.value, base, st');
      }
    }
  }

  lemma MovedBooks(t: Table, st: State, p: nat, base: u32, st': State)
    requires TableOk(t) && Books(t, st) && p < |st.loaded| && base % 4 == 0
    requires st'.loaded == st.loaded[p := Loaded(base, st.loaded[p].section)]
    requires st'.addresses == SetAddress(st.addresses, t[st.loaded[p].section].index, base)
    ensures Books(t, st')
  {
    assert forall q :: 0 <= q < |st.loaded| ==> st'.loaded[q].section == st.loaded[q].section;
  }

  // --- Every run ---------------------------------------------------------------------------

  // RAM addresses agree with ROM addresses modulo 4, and fragments are placed at words.
  predicate Aligned(op: Op) {
    && (op.Dma? ==> SameAlignment(op.rom, op.ram))
    && (op.Fragment? ==> op.base % 4 == 0)
  }

  // Over every run of the entry points the bookkeeping stays right.
  lemma {:induction false} RunBooks(t: Table, st: State, ops: seq<Op>)
    requires TableOk(t) && Books(t, st) && InTable(t, st.loaded) && OpsInTable(t, ops)
    requires forall op :: op in ops ==> Aligned(op)
    ensures var r := Run(t, st, ops); r.Some? ==> Books(t, r.value)
    decreases |ops|
  {
    hide TableOk, Books, InTable, SameAlignment, LoadOverlays, Unload, UnloadRegion, Place;
    if ops != [] {
      var op := ops[0];
      assert op in ops && forall o :: o in ops[1..] ==> o in ops;
      if op.Dma? {
        LoadOverlaysBooks(t, st, op.rom, op.ram, op.size);
      } else if op.UnloadSection? {
        UnloadBooks(t, st, op.section);
      } else if op.UnloadMemory? {
        UnloadRegionBooks(t, st, 0, op.ram, op.size);
      } else {
        PlaceBooks(t, st, op.bound, op.base, op.previous);
      }
      var r := Step(t, st, op);
      if r.Some? { RunBooks(t, r.value, ops[1..]); }
    }
  }
}
