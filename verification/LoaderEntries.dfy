// Which sections each entry point of the loader leaves loaded, and where.
module LoaderEntries {
  import opened Options
  import opened Words
  import opened Loader
  import opened LoaderBooks
  import opened LoaderStreaming

  predicate Within(x: int, base: int, size: int) { base <= x < base + size }

  // Section i, loaded at base, and entry l have an address in common.
  ghost predicate Meeting(t: Table, i: nat, base: int, l: Loaded) {
    && i < |t| && l.section < |t|
    && exists x :: Within(x, base, t[i].size) && Within(x, l.base, t[l.section].size)
  }

  lemma MeetingIsOverlap(t: Table, i: nat, base: u32, l: Loaded)
    requires i < |t| && l.section < |t| && t[i].size > 0 && t[l.section].size > 0
    ensures Meeting(t, i, base, l) <==> Overlap(base, t[i].size, l.base, t[l.section].size)
  {
    if Overlap(base, t[i].size, l.base, t[l.section].size) {
      var x := if base < l.base then l.base else base;
      assert Within(x, base, t[i].size) && Within(x, l.base, t[l.section].size);
    }
  }

  ghost predicate NoneEmpty(t: Table) { forall i :: 0 <= i < |t| ==> t[i].size > 0 }

  // --- One section -------------------------------------------------------------------------------

  lemma RemovedEntry(loaded: seq<Loaded>, p: nat, l: Loaded)
    requires p < |loaded| && Unique(loaded)
    ensures l in loaded[..p] + loaded[p + 1..] <==> l in loaded && l.section != loaded[p].section
  {
    var loaded' := loaded[..p] + loaded[p + 1..];
    if l in loaded && l.section != loaded[p].section {
      var q :| 0 <= q < |loaded| && loaded[q] == l;
      assert loaded'[if q < p then q else q - 1] == l;
    }
    if l in loaded' {
      var q :| 0 <= q < |loaded'| && loaded'[q] == l;
      assert loaded[if q < p then q else q + 1] == l;
    }
  }

  // Unloading a section takes its entry off the list and no other.
  lemma UnloadEntries(t: Table, st: State, i: nat, l: Loaded)
    requires i < |t| && Unique(st.loaded) && InTable(t, st.loaded)
    ensures l in Unload(t, st, i).loaded <==> l in st.loaded && l.section != i
  {
    var r := FindLoaded(st.loaded, i);
    if r.Some? { RemovedEntry(st.loaded, r.value, l); }
  }

  // Eviction takes off the list exactly the other sections that meet the range.
  lemma {:induction false} EvictEntries(t: Table, st: State, i: nat, base: u32, l: Loaded)
    requires TableOk(t) && Books(t, st) && NoneEmpty(t) && i < |t|
    ensures InTable(t, st.loaded)
    ensures l in Evict(t, st, i, base).loaded <==>
            l in st.loaded && (l.section == i || !Meeting(t, i, base, l))
    decreases |st.loaded|
  {
    var r := FirstOverlap(t, st.loaded, i, base);
    if l in st.loaded { MeetingIsOverlap(t, i, base, l); }
    if r.Some? {
      var k := st.loaded[r.value];
      MeetingIsOverlap(t, i, base, k);
      UnloadBooks(t, st, k.section);
      assert IsLoaded(st.loaded, k.section);
      UnloadEntries(t, st, k.section, l);
      EvictEntries(t, Unload(t, st, k.section), i, base, l);
      if l in st.loaded && l.section == k.section { SameEntry(st.loaded, l, k); }
    } else if l in st.loaded {
      assert !Meets(t, l, i, base);
    }
  }

  lemma SameEntry(loaded: seq<Loaded>, a: Loaded, b: Loaded)
    requires Unique(loaded) && a in loaded && b in loaded && a.section == b.section
    ensures a == b
  {}

  // Registering leaves the section at the base, and of the others those that do not meet it.
  ghost predicate RegistersAt(t: Table, loaded: seq<Loaded>, loaded': seq<Loaded>, i: nat, base: u32) {
    forall l: Loaded :: l in loaded' <==>
      l == Loaded(base, i) || (l in loaded && l.section != i && !Meeting(t, i, base, l))
  }

  lemma RegisterEntries(t: Table, st: State, i: nat, base: u32)
    requires TableOk(t) && Books(t, st) && NoneEmpty(t) && i < |t| && base % 4 == 0
    ensures InTable(t, st.loaded) && RegistersAt(t, st.loaded, Register(t, st, i, base).loaded, i, base)
  {
    assert InTable(t, st.loaded);
    var st1, st' := Evict(t, st, i, base), Register(t, st, i, base);
    EvictBooks(t, st, i, base);
    RegisterBooks(t, st, i, base);
    forall l: Loaded
      ensures l in st'.loaded <==>
              l == Loaded(base, i) || (l in st.loaded && l.section != i && !Meeting(t, i, base, l))
    {
      EvictEntries(t, st, i, base, l);
      UnloadEntries(t, st1, i, l);
      hide TableOk, Meeting, NoneEmpty, Evict;
      if l in st'.loaded && l.section == i { SameEntry(st'.loaded, l, Loaded(base, i)); }
    }
  }

  // --- A DMA ---------------------------------------------------------------------------------------

  // The DMA of `size` bytes at ROM address `rom` covers section i, or starts in it.
  predicate Taken(t: Table, i: nat, rom: int, size: int)
    requires i < |t|
  {
    || (rom <= t[i].rom && t[i].rom + t[i].size <= rom + size)
    || t[i].rom <= rom < t[i].rom + t[i].size
  }

  // Neither the ROM range of a DMA nor the base of a section it takes wraps round.
  ghost predicate NoWrap(t: Table, rom: u32, ram: u32, size: u32) {
    && rom + size < TWO32
    && forall i :: 0 <= i < |t| && Taken(t, i, rom, size) ==> 0 <= ram + (t[i].rom - rom) < TWO32
  }

  // The sections of `js` are where the DMA puts them, and of the others those that meet none of
  // them are where they were.
  ghost predicate Registered(t: Table, loaded: seq<Loaded>, loaded': seq<Loaded>, js: set<nat>, rom: u32, ram: u32) {
    forall l: Loaded :: l in loaded' <==>
      if l.section in js then l.section < |t| && l.base == ram + (t[l.section].rom - rom)
      else l in loaded && forall j :: j in js && j < |t| ==> !Meeting(t, j, ram + (t[j].rom - rom), l)
  }

  // The sections taken lie apart in RAM as they do in ROM.
  lemma TakenApart(t: Table, i: nat, j: nat, rom: u32, ram: u32, size: u32, l: Loaded)
    requires RomTable(t) && i < |t| && j < |t| && i != j
    requires l.section == j && l.base == ram + (t[j].rom - rom)
    ensures !Meeting(t, i, ram + (t[i].rom - rom), l)
  {}

  // One more of them.
  lemma RegisteredAlso(t: Table, loaded: seq<Loaded>, was: seq<Loaded>, now: seq<Loaded>,
                       js: set<nat>, i: nat, rom: u32, ram: u32, size: u32)
    requires RomTable(t) && i < |t| && (forall j :: j in js ==> j < |t|)
    requires 0 <= ram + (t[i].rom - rom) < TWO32
    requires Registered(t, loaded, was, js, rom, ram) && RegistersAt(t, was, now, i, ram + (t[i].rom - rom))
    ensures Registered(t, loaded, now, js + {i}, rom, ram)
  {
    var base := ram + (t[i].rom - rom);
    forall l: Loaded
      ensures l in now <==>
              if l.section in js + {i} then l.section < |t| && l.base == ram + (t[l.section].rom - rom)
              else l in loaded && forall j :: j in js + {i} && j < |t| ==> !Meeting(t, j, ram + (t[j].rom - rom), l)
    {
      if l.section in js && l.section != i && l.base == ram + (t[l.section].rom - rom) {
        TakenApart(t, i, l.section, rom, ram, size, l);
      }
      hide Meeting, RomTable;
    }
  }

  lemma RegisterTaken(t: Table, loaded: seq<Loaded>, st: State, js: set<nat>, i: nat, rom: u32, ram: u32, size: u32)
    requires TableOk(t) && RomTable(t) && Books(t, st) && InTable(t, st.loaded) && SameAlignment(rom, ram)
    requires i < |t| && Taken(t, i, rom, size) && NoWrap(t, rom, ram, size) && (forall j :: j in js ==> j < |t|)
    requires Registered(t, loaded, st.loaded, js, rom, ram)
    ensures var st' := RegisterChunk(t, st, Some(i), rom, ram);
            Books(t, st') && Registered(t, loaded, st'.loaded, js + {i}, rom, ram)
  {
    hide *;
    var base := ram + (t[i].rom - rom);
    BaseFits(t, i, rom, ram, size);
    RegisterChunkIs(t, st, Some(i), rom, ram);
    AlignedAt(t, i, rom, ram);
    BaseIs(t[i].rom, rom, ram);
    RegisterChunkBooks(t, st, Some(i), rom, ram);
    RegisterEntries(t, st, i, base);
    RegisteredAlso(t, loaded, st.loaded, Register(t, st, i, base).loaded, js, i, rom, ram, size);
  }

  lemma BaseFits(t: Table, i: nat, rom: u32, ram: u32, size: u32)
    requires RomTable(t) && i < |t| && Taken(t, i, rom, size) && NoWrap(t, rom, ram, size)
    ensures NoneEmpty(t) && 0 <= ram + (t[i].rom - rom) < TWO32
  {}

  lemma BaseIs(x: u32, rom: u32, ram: u32)
    requires 0 <= ram + (x - rom) < TWO32
    ensures Wrap32(x - rom + ram) == ram + (x - rom)
  {}

  // The sections lo..hi that the DMA covers to their ends.
  function Whole(t: Table, lo: nat, hi: nat, rom: int, size: int): set<nat>
    requires hi <= |t|
  {
    set i | lo <= i < hi && t[i].rom + t[i].size <= rom + size
  }

  lemma {:induction false} WholeRegistered(t: Table, loaded: seq<Loaded>, st: State, js: set<nat>,
                                           lo: nat, hi: nat, rom: u32, ram: u32, size: u32)
    requires TableOk(t) && RomTable(t) && Books(t, st) && InTable(t, st.loaded) && SameAlignment(rom, ram)
    requires NoWrap(t, rom, ram, size) && hi <= |t| && (forall j :: j in js ==> j < |t|)
    requires forall i :: lo <= i < hi ==> rom <= t[i].rom
    requires Registered(t, loaded, st.loaded, js, rom, ram)
    ensures var st' := RegisterWhole(t, st, lo, hi, rom, ram, size);
            Books(t, st') && Registered(t, loaded, st'.loaded, js + Whole(t, lo, hi, rom, size), rom, ram)
    decreases hi - lo
  {
    hide TableOk, RomTable, Books, InTable, SameAlignment, NoWrap, Registered, RegisterWhole, RegisterChunk;
    if lo >= hi {
      assert RegisterWhole(t, st, lo, hi, rom, ram, size) == st by { NoneWhole(t, st, lo, hi, rom, ram, size); }
      assert js + Whole(t, lo, hi, rom, size) == js;
    } else {
      var st1 := RegisterWholeOne(t, st, lo, hi, rom, ram, size);
      if t[lo].rom + t[lo].size <= rom + size {
        RegisterTaken(t, loaded, st, js, lo, rom, ram, size);
        WholeRegistered(t, loaded, st1, js + {lo}, lo + 1, hi, rom, ram, size);
        assert js + {lo} + Whole(t, lo + 1, hi, rom, size) == js + Whole(t, lo, hi, rom, size);
      } else {
        WholeRegistered(t, loaded, st1, js, lo + 1, hi, rom, ram, size);
        assert Whole(t, lo + 1, hi, rom, size) == Whole(t, lo, hi, rom, size);
      }
    }
  }

  lemma NoneWhole(t: Table, st: State, lo: nat, hi: nat, rom: u32, ram: u32, size: u32)
    requires lo >= hi && hi <= |t| && InTable(t, st.loaded)
    ensures RegisterWhole(t, st, lo, hi, rom, ram, size) == st
  {}

  lemma RegisterWholeOne(t: Table, st: State, lo: nat, hi: nat, rom: u32, ram: u32, size: u32) returns (st1: State)
    requires lo < hi <= |t| && InTable(t, st.loaded) && RomTable(t) && NoWrap(t, rom, ram, size)
    ensures InTable(t, st1.loaded)
    ensures st1 == if t[lo].rom + t[lo].size <= rom + size then RegisterChunk(t, st, Some(lo), rom, ram) else st
    ensures RegisterWhole(t, st, lo, hi, rom, ram, size) == RegisterWhole(t, st1, lo + 1, hi, rom, ram, size)
  {
    hide Register, InTable;
    st1 := if t[lo].rom + t[lo].size <= rom + size then RegisterChunk(t, st, Some(lo), rom, ram) else st;
  }

  function Chosen(chunk: Option<nat>): set<nat> { if chunk.Some? then {chunk.value} else {} }

  lemma ChunkRegistered(t: Table, loaded: seq<Loaded>, st: State, js: set<nat>, chunk: Option<nat>,
                        rom: u32, ram: u32, size: u32)
    requires TableOk(t) && RomTable(t) && Books(t, st) && InTable(t, st.loaded) && SameAlignment(rom, ram)
    requires NoWrap(t, rom, ram, size) && (forall j :: j in js ==> j < |t|)
    requires chunk.Some? ==> chunk.value < |t| && Taken(t, chunk.value, rom, size)
    requires Registered(t, loaded, st.loaded, js, rom, ram)
    ensures var st' := RegisterChunk(t, st, chunk, rom, ram);
            Books(t, st') && Registered(t, loaded, st'.loaded, js + Chosen(chunk), rom, ram)
  {
    hide TableOk, RomTable, Books, InTable, SameAlignment, NoWrap, Registered, Taken, Register;
    if chunk.Some? {
      RegisterTaken(t, loaded, st, js, chunk.value, rom, ram, size);
    } else {
      RegisterChunkIs(t, st, chunk, rom, ram);
      assert js + Chosen(chunk) == js;
    }
  }

  function AllTaken(t: Table, rom: int, size: int): set<nat> { set i | 0 <= i < |t| && Taken(t, i, rom, size) }

  lemma InRomOrder(t: Table, i: nat, j: nat)
    requires RomTable(t) && i < j < |t|
    ensures t[i].rom < t[i].rom + t[i].size <= t[j].rom
  {}

  // The three searches find a section between them exactly when it is taken.
  lemma TakenIsFound(t: Table, i: nat, rom: u32, ram: u32, size: u32)
    requires RomTable(t) && NoWrap(t, rom, ram, size) && i < |t|
    ensures var k, hi := LowerBound(t, rom), UpperBound(t, rom + size);
            Taken(t, i, rom, size) <==>
            || (k <= i < hi && t[i].rom + t[i].size <= rom + size)
            || ChunkOf(t, k, rom) == Some(i)
            || FirstChunkOf(t, k, rom, size) == Some(i)
  {
    var k, hi := LowerBound(t, rom), UpperBound(t, rom + size);
    ChunksAre(t, k, rom, ram, size);
    SizesFit(t, i);
    if k < i { InRomOrder(t, k, i); }
    if 0 < k && i < k - 1 { InRomOrder(t, i, k - 1); }
    BoundsAre(t, i, rom, size);
    hide RomTable, NoWrap, LowerBound, UpperBound, ChunkOf, FirstChunkOf;
  }

  lemma BoundsAre(t: Table, i: nat, rom: int, size: int)
    requires i < |t|
    ensures i < LowerBound(t, rom) ==> t[i].rom < rom
    ensures i == LowerBound(t, rom) ==> t[i].rom >= rom
    ensures i >= UpperBound(t, rom + size) ==> UpperBound(t, rom + size) < |t|
    ensures UpperBound(t, rom + size) < |t| ==> t[UpperBound(t, rom + size)].rom > rom + size
    ensures i < UpperBound(t, rom + size) ==> t[i].rom <= rom + size
    ensures LowerBound(t, rom) > 0 ==> t[LowerBound(t, rom) - 1].rom < rom
  {}

  lemma ChunksAre(t: Table, k: nat, rom: u32, ram: u32, size: u32)
    requires RomTable(t) && NoWrap(t, rom, ram, size) && k <= |t|
    ensures ChunkOf(t, k, rom) ==
            if k > 0 && t[k - 1].rom <= rom < t[k - 1].rom + t[k - 1].size then Some(k - 1) else None
    ensures FirstChunkOf(t, k, rom, size) ==
            if k < |t| && t[k].rom == rom && t[k].rom + t[k].size > rom + size then Some(k) else None
  {
    assert rom + size < TWO32;
    if k > 0 { SizesFit(t, k - 1); }
    if k < |t| { SizesFit(t, k); }
    hide RomTable, NoWrap;
  }

  lemma SizesFit(t: Table, i: nat)
    requires RomTable(t) && i < |t|
    ensures t[i].size > 0 && t[i].rom + t[i].size < TWO32
  {}

  // So the sets agree.
  lemma TakenSets(t: Table, rom: u32, ram: u32, size: u32)
    requires RomTable(t) && NoWrap(t, rom, ram, size)
    ensures var k, hi := LowerBound(t, rom), UpperBound(t, rom + size);
            var before, first := ChunkOf(t, k, rom), FirstChunkOf(t, k, rom, size);
            && (before.Some? ==> Taken(t, before.value, rom, size))
            && (first.Some? ==> Taken(t, first.value, rom, size))
            && AllTaken(t, rom, size) == Whole(t, k, hi, rom, size) + Chosen(before) + Chosen(first)
  {
    var k, hi := LowerBound(t, rom), UpperBound(t, rom + size);
    hide RomTable, NoWrap, ChunkOf, FirstChunkOf, LowerBound, UpperBound, Taken;
    forall i | 0 <= i < |t|
      ensures Taken(t, i, rom, size) <==> (k <= i < hi && t[i].rom + t[i].size <= rom + size)
                                          || ChunkOf(t, k, rom) == Some(i) || FirstChunkOf(t, k, rom, size) == Some(i)
    {
      TakenIsFound(t, i, rom, ram, size);
    }
  }

  // What the three parts of a DMA leave registered.
  lemma TakenRegistered(t: Table, st: State, rom: u32, ram: u32, size: u32)
    requires TableOk(t) && RomTable(t) && Books(t, st) && SameAlignment(rom, ram) && NoWrap(t, rom, ram, size)
    requires InTable(t, st.loaded)
    ensures Registered(t, st.loaded, LoadOverlays(t, st, rom, ram, size).loaded, AllTaken(t, rom, size), rom, ram)
  {
    hide *;
    var k, hi := LowerBound(t, rom), UpperBound(t, rom + size);
    TakenSets(t, rom, ram, size);
    EndFits(t, rom, ram, size);
    var js, before, first := Whole(t, k, hi, rom, size), ChunkOf(t, k, rom), FirstChunkOf(t, k, rom, size);
    NoneRegistered(t, st.loaded, rom, ram);
    AtOrAfter(t, k, rom);
    WholeRegistered(t, st.loaded, st, {}, k, hi, rom, ram, size);
    assert {} + js == js;
    var st1 := RegisterWhole(t, st, k, hi, rom, ram, size);
    WholeInTable(t, k, hi, rom, size);
    BooksInTable(t, st1);
    ChunkRegistered(t, st.loaded, st1, js, before, rom, ram, size);
    var st2 := RegisterChunk(t, st1, before, rom, ram);
    BooksInTable(t, st2);
    ChosenInTable(t, js, before);
    ChunkRegistered(t, st.loaded, st2, js + Chosen(before), first, rom, ram, size);
    LoadOverlaysIs(t, st, rom, ram, size);
  }

  lemma EndFits(t: Table, rom: u32, ram: u32, size: u32)
    requires NoWrap(t, rom, ram, size)
    ensures rom + size < TWO32
  {}

  lemma NoneRegistered(t: Table, loaded: seq<Loaded>, rom: u32, ram: u32)
    ensures Registered(t, loaded, loaded, {}, rom, ram)
  {}

  lemma AtOrAfter(t: Table, k: nat, rom: u32)
    requires RomTable(t) && k == LowerBound(t, rom)
    ensures forall i :: k <= i < |t| ==> rom <= t[i].rom
  {}

  lemma WholeInTable(t: Table, lo: nat, hi: nat, rom: int, size: int)
    requires hi <= |t|
    ensures forall j :: j in Whole(t, lo, hi, rom, size) ==> j < |t|
  {}

  lemma ChosenInTable(t: Table, js: set<nat>, chunk: Option<nat>)
    requires (forall j :: j in js ==> j < |t|) && (chunk.Some? ==> chunk.value < |t|)
    ensures forall j :: j in js + Chosen(chunk) ==> j < |t|
  {}

  lemma BooksInTable(t: Table, st: State)
    requires Books(t, st)
    ensures InTable(t, st.loaded)
  {}

  lemma LoadOverlaysIs(t: Table, st: State, rom: u32, ram: u32, size: u32)
    requires InTable(t, st.loaded) && rom + size < TWO32
    ensures var k, hi := LowerBound(t, rom), UpperBound(t, rom + size);
            var st1 := RegisterWhole(t, st, k, hi, rom, ram, size);
            LoadOverlays(t, st, rom, ram, size) ==
            RegisterChunk(t, RegisterChunk(t, st1, ChunkOf(t, k, rom), rom, ram),
                          FirstChunkOf(t, k, rom, size), rom, ram)
  {
    hide RegisterChunk, RegisterWhole, ChunkOf, FirstChunkOf, InTable;
  }

  // Main result: after a DMA every section it covers, and the one it starts in, is loaded where
  // the DMA put it; every other section is loaded exactly if and where it was, unless it meets
  // one of those.
  lemma LoadOverlaysEntries(t: Table, st: State, rom: u32, ram: u32, size: u32)
    requires TableOk(t) && RomTable(t) && Books(t, st) && SameAlignment(rom, ram) && NoWrap(t, rom, ram, size)
    ensures InTable(t, st.loaded)
    ensures forall l: Loaded :: l in LoadOverlays(t, st, rom, ram, size).loaded <==>
              if l.section < |t| && Taken(t, l.section, rom, size) then l.base == ram + (t[l.section].rom - rom)
              else l in st.loaded && forall j :: 0 <= j < |t| && Taken(t, j, rom, size) ==>
                     !Meeting(t, j, ram + (t[j].rom - rom), l)
  {
    BooksInTable(t, st);
    hide TableOk, RomTable, Books, SameAlignment, NoWrap, LoadOverlays, Meeting, Taken;
    TakenRegistered(t, st, rom, ram, size);
    assert forall j :: j in AllTaken(t, rom, size) <==> 0 <= j < |t| && Taken(t, j, rom, size);
  }

  // --- Unloading a region ---------------------------------------------------------------------------

  // No address of a region or of a loaded section wraps round, and all lie in the same half of
  // the address space.
  predicate Level(t: Table, l: Loaded, ram: u32, size: u32) {
    && l.section < |t| && ram + size < TWO32 && l.base + t[l.section].size < TWO32
    && (ram < 0x8000_0000 <==> l.base < 0x8000_0000)
  }

  // The region, its end included, comes to the section; it holds the whole of it.
  predicate Reached(t: Table, l: Loaded, ram: u32, size: u32) {
    l.section < |t| && ram < l.base + t[l.section].size && l.base <= ram + size
  }

  predicate Held(t: Table, l: Loaded, ram: u32, size: u32) {
    l.section < |t| && ram <= l.base && l.base + t[l.section].size <= ram + size
  }

  // The process exits exactly when a loaded section is reached and not held; otherwise just the
  // sections reached are gone.
  lemma UnloadRegionEntries(t: Table, st: State, ram: u32, size: u32)
    requires InTable(t, st.loaded) && forall l :: l in st.loaded ==> Level(t, l, ram, size)
    ensures var r := UnloadRegion(t, st, 0, ram, size);
            if exists l :: l in st.loaded && Reached(t, l, ram, size) && !Held(t, l, ram, size) then r.None?
            else r.Some? && forall l: Loaded :: l in r.value.loaded <==> l in st.loaded && !Reached(t, l, ram, size)
  {
    UnloadRegionIs(t, st, 0, ram, size);
    forall l: Loaded | l in st.loaded
      ensures Touched(t, l, ram, size) <==> Reached(t, l, ram, size)
      ensures Partial(t, l, ram, size) <==> !Held(t, l, ram, size)
    {
      LevelIs(t, l, ram, size);
    }
    assert st.loaded[..0] == [] && st.loaded[0..] == st.loaded;
    hide Touched, Partial, Reached, Held, UnloadRegion, Level;
    forall l: Loaded
      ensures l in Untouched(t, st.loaded, ram, size) <==> l in st.loaded && !Touched(t, l, ram, size)
    {
      UntouchedIs(t, st.loaded, ram, size, l);
    }
  }

  lemma LevelIs(t: Table, l: Loaded, ram: u32, size: u32)
    requires Level(t, l, ram, size)
    ensures Touched(t, l, ram, size) <==> Reached(t, l, ram, size)
    ensures Partial(t, l, ram, size) <==> !Held(t, l, ram, size)
  {}

  lemma {:induction false} UntouchedIs(t: Table, loaded: seq<Loaded>, ram: u32, size: u32, l: Loaded)
    requires InTable(t, loaded)
    ensures l in Untouched(t, loaded, ram, size) <==> l in loaded && !Touched(t, l, ram, size)
  {
    hide Touched;
    if loaded != [] {
      assert loaded == [loaded[0]] + loaded[1..];
      UntouchedIs(t, loaded[1..], ram, size, l);
    }
  }

  // --- Fragments ---------------------------------------------------------------------------------------

  // Evicting at a base takes off the list exactly the other sections loaded there.
  lemma {:induction false} EvictAtBaseEntries(t: Table, st: State, p: nat, keep: nat, base: u32, l: Loaded)
    requires InTable(t, st.loaded) && p <= |st.loaded|
    ensures l in EvictAtBase(t, st, p, keep, base).loaded <==>
            l in st.loaded[..p] || (l in st.loaded[p..] && (l.base != base || l.section == keep))
    decreases |st.loaded| - p
  {
    hide UninstallAll, SetAddress;
    if p == |st.loaded| {
      assert st.loaded[..p] == st.loaded;
    } else {
      var k := st.loaded[p];
      assert st.loaded[p..] == [k] + st.loaded[p + 1..] && st.loaded[..p + 1] == st.loaded[..p] + [k];
      if k.base != base || k.section == keep {
        EvictAtBaseEntries(t, st, p + 1, keep, base, l);
      } else {
        var s := t[k.section];
        var st' := State(st.loaded[..p] + st.loaded[p + 1..], SetAddress(st.addresses, s.index, s.link),
                         UninstallAll(st.funcMap, s, base, |s.funcs|));
        assert st'.loaded[..p] == st.loaded[..p] && st'.loaded[p..] == st.loaded[p + 1..];
        EvictAtBaseEntries(t, st', p, keep, base, l);
      }
    }
  }

  // A fragment placed at a base leaves there its own section, if it is bound to one, and no other;
  // sections elsewhere are as they were.
  lemma PlaceEntries(t: Table, st: State, i: Option<nat>, base: u32, previous: Option<(u32, u32)>, l: Loaded)
    requires InTable(t, st.loaded) && Unique(st.loaded) && (i.Some? ==> i.value < |t|)
    ensures l in Place(t, st, i, base, previous).loaded <==>
            if i == Some(l.section) then l.base == base else l in st.loaded && l.base != base
  {
    var keep := if i.Some? then i.value else |t|;
    var st1, st' := EvictAtBase(t, st, 0, keep, base), Place(t, st, i, base, previous);
    assert st.loaded[..0] == [] && st.loaded[0..] == st.loaded;
    EvictAtBaseEntries(t, st, 0, keep, base, l);
    EvictAtBaseUnique(t, st, 0, keep, base);
    hide UninstallAll, InstallAll, RangeErase, SetAddress, EvictAtBase;
    if i.Some? { RebaseEntries(st1.loaded, keep, base, l); }
  }

  lemma RebaseEntries(loaded: seq<Loaded>, i: nat, base: u32, l: Loaded)
    requires Unique(loaded)
    ensures l in Rebase(loaded, i, base) <==> if l.section == i then l.base == base else l in loaded
  {
    var r, loaded' := FindLoaded(loaded, i), Rebase(loaded, i, base);
    var at := if r.Some? then r.value else |loaded|;
    assert loaded'[at] == Loaded(base, i);
    assert forall q :: 0 <= q < |loaded| && q != at ==> loaded'[q] == loaded[q];
    if l in loaded && l.section != i {
      var q :| 0 <= q < |loaded| && loaded[q] == l;
      assert loaded'[q] == l;
    }
  }

  lemma {:induction false} EvictAtBaseUnique(t: Table, st: State, p: nat, keep: nat, base: u32)
    requires InTable(t, st.loaded) && Unique(st.loaded) && p <= |st.loaded|
    ensures Unique(EvictAtBase(t, st, p, keep, base).loaded)
    decreases |st.loaded| - p
  {
    hide UninstallAll, SetAddress;
    if p < |st.loaded| {
      var k := st.loaded[p];
      if k.base != base || k.section == keep {
        EvictAtBaseUnique(t, st, p + 1, keep, base);
      } else {
        var s := t[k.section];
        RemovedEntries(t, st.loaded, p);
        EvictAtBaseUnique(t, State(st.loaded[..p] + st.loaded[p + 1..], SetAddress(st.addresses, s.index, s.link),
                                   UninstallAll(st.funcMap, s, base, |s.funcs|)), p, keep, base);
      }
    }
  }
}
