// The function map is an index: it agrees with a plain scan of the loaded sections, and
// loaded runtime ranges stay disjoint, over every run of DMA loads and unloads.
module LoaderIndex {
  import opened Options
  import opened Words
  import opened Loader
  import opened LoaderBooks
  import opened LoaderRanges

  // --- The plain scan --------------------------------------------------------------------

  // Section s, loaded at base, has host function f at guest address a.
  ghost predicate Provides(s: Section, base: u32, a: u32, f: Func) {
    exists k :: 0 <= k < |s.funcs| && s.funcs[k].func == Some(f) && At(s, base, s.funcs[k].offset, a)
  }

  predicate At(s: Section, base: u32, offset: u32, a: u32) { a == base + offset || a == s.link + offset }

  ghost predicate Scan(t: Table, loaded: seq<Loaded>, a: u32, f: Func)
    requires InTable(t, loaded)
  {
    exists p :: 0 <= p < |loaded| && Provides(t[loaded[p].section], loaded[p].base, a, f)
  }

  // --- What is assumed of the table and of where sections are placed ----------------------

  predicate Apart(a: u32, aSize: u32, b: u32, bSize: u32) { a + aSize <= b || b + bSize <= a }

  ghost predicate SectionOk(s: Section) {
    && s.size > 0 && s.link + s.size <= TWO32
    && (forall k :: 0 <= k < |s.funcs| ==> s.funcs[k].offset < s.size)
    && (forall j, k :: 0 <= j < k < |s.funcs| ==> s.funcs[j].offset != s.funcs[k].offset)
  }

  // Functions lie inside their sections and link ranges are pairwise apart.
  ghost predicate LinkTableOk(t: Table) {
    && (forall i :: 0 <= i < |t| ==> SectionOk(t[i]))
    && (forall i, j :: 0 <= i < j < |t| ==> Apart(t[i].link, t[i].size, t[j].link, t[j].size))
  }

  // A runtime range meets no link range, except a section at its own link base.
  ghost predicate BaseOk(t: Table, i: nat, base: u32)
    requires i < |t|
  {
    && base + t[i].size <= TWO32
    && forall j :: 0 <= j < |t| && !(j == i && base == t[i].link) ==> Apart(base, t[i].size, t[j].link, t[j].size)
  }

  // --- The invariant ------------------------------------------------------------------------

  ghost predicate Placed(t: Table, loaded: seq<Loaded>) {
    && InTable(t, loaded)
    && (forall p :: 0 <= p < |loaded| ==> BaseOk(t, loaded[p].section, loaded[p].base))
    && (forall p, q :: 0 <= p < q < |loaded| ==>
          Apart(loaded[p].base, t[loaded[p].section].size, loaded[q].base, t[loaded[q].section].size))
  }

  ghost predicate Indexed(t: Table, st: State)
    requires InTable(t, st.loaded)
  {
    forall a: u32, f: Func :: (a in st.funcMap && st.funcMap[a] == f) <==> Scan(t, st.loaded, a, f)
  }

  ghost predicate Inv(t: Table, st: State) { Placed(t, st.loaded) && Indexed(t, st) }

  // --- One section's aliases -------------------------------------------------------------------

  // The first n functions of s, loaded at base, provide something at a.
  ghost predicate Covers(s: Section, base: u32, a: u32, n: nat)
    requires n <= |s.funcs|
  {
    exists k :: 0 <= k < n && s.funcs[k].func.Some? && At(s, base, s.funcs[k].offset, a)
  }

  ghost predicate SelfApart(s: Section, base: u32) {
    SectionOk(s) && base + s.size <= TWO32 && (base == s.link || Apart(base, s.size, s.link, s.size))
  }

  lemma InstallIs(m: map<u32, Func>, s: Section, base: u32, e: FuncEntry, a: u32)
    requires base + s.size <= TWO32 && s.link + s.size <= TWO32 && e.offset < s.size
    ensures var m' := Install(m, s, base, e);
            if e.func.Some? && At(s, base, e.offset, a) then a in m' && m'[a] == e.func.value
            else (a in m' <==> a in m) && (a in m ==> m'[a] == m[a])
  {}

  lemma {:induction false} InstallAllIs(m: map<u32, Func>, s: Section, base: u32, n: nat, a: u32)
    requires SelfApart(s, base) && n <= |s.funcs|
    ensures var m' := InstallAll(m, s, base, n);
            if Covers(s, base, a, n)
            then a in m' && exists k :: 0 <= k < n && s.funcs[k].func == Some(m'[a]) && At(s, base, s.funcs[k].offset, a)
            else (a in m' <==> a in m) && (a in m ==> m'[a] == m[a])
    decreases n
  {
    if n > 0 {
      InstallAllIs(m, s, base, n - 1, a);
      InstallIs(InstallAll(m, s, base, n - 1), s, base, s.funcs[n - 1], a);
      hide Install, SelfApart;
      assert Covers(s, base, a, n) <==>
        Covers(s, base, a, n - 1) || (s.funcs[n - 1].func.Some? && At(s, base, s.funcs[n - 1].offset, a));
    }
  }

  lemma {:induction false} UninstallAllIs(m: map<u32, Func>, s: Section, base: u32, n: nat, a: u32)
    requires SelfApart(s, base) && n <= |s.funcs|
    ensures var m' := UninstallAll(m, s, base, n);
            && (a in m' <==> a in m && !Covers(s, base, a, n))
            && (a in m' ==> m'[a] == m[a])
    decreases n
  {
    if n > 0 {
      UninstallAllIs(m, s, base, n - 1, a);
      assert s.funcs[n - 1].offset < s.size;
    }
  }

  // Within one section an address names at most one function.
  lemma ProvidesOnce(s: Section, base: u32, a: u32, f: Func, g: Func)
    requires SelfApart(s, base) && Provides(s, base, a, f) && Provides(s, base, a, g)
    ensures f == g
  {
    var j :| 0 <= j < |s.funcs| && s.funcs[j].func == Some(f) && At(s, base, s.funcs[j].offset, a);
    var k :| 0 <= k < |s.funcs| && s.funcs[k].func == Some(g) && At(s, base, s.funcs[k].offset, a);
    assert s.funcs[j].offset < s.size && s.funcs[k].offset < s.size;
  }

  predicate InRange(base: u32, size: u32, a: u32) { base <= a < base + size }

  lemma ProvidedRange(s: Section, base: u32, a: u32, f: Func)
    requires SectionOk(s) && Provides(s, base, a, f)
    ensures InRange(base, s.size, a) || InRange(s.link, s.size, a)
  {}

  // Two sections placed apart share no address.
  lemma NoSharedAddress(t: Table, p: Loaded, q: Loaded, a: u32)
    requires LinkTableOk(t) && p.section < |t| && q.section < |t| && p.section != q.section
    requires BaseOk(t, p.section, p.base) && BaseOk(t, q.section, q.base)
    requires Apart(p.base, t[p.section].size, q.base, t[q.section].size)
    ensures !(InRange(p.base, t[p.section].size, a) || InRange(t[p.section].link, t[p.section].size, a))
            || !(InRange(q.base, t[q.section].size, a) || InRange(t[q.section].link, t[q.section].size, a))
  {
    var i, j := p.section, q.section;
    assert Apart(t[i].link, t[i].size, t[j].link, t[j].size);
    assert Apart(p.base, t[i].size, t[j].link, t[j].size);
    assert Apart(q.base, t[j].size, t[i].link, t[i].size);
  }

  // --- Unload and load -----------------------------------------------------------------------

  lemma CoversIsProvides(s: Section, base: u32, a: u32)
    ensures Covers(s, base, a, |s.funcs|) <==> exists f :: Provides(s, base, a, f)
  {
    if Covers(s, base, a, |s.funcs|) {
      var k :| 0 <= k < |s.funcs| && s.funcs[k].func.Some? && At(s, base, s.funcs[k].offset, a);
      assert Provides(s, base, a, s.funcs[k].func.value);
    }
  }

  // After unloading position p an address maps to what another loaded section provides.
  lemma ErasedOnly(t: Table, st: State, p: nat, a: u32)
    requires LinkTableOk(t) && Inv(t, st) && Unique(st.loaded) && p < |st.loaded|
    ensures var s, base := t[st.loaded[p].section], st.loaded[p].base;
            var m' := UnloadAt(t, st, p).funcMap;
            && (a in m' <==> a in st.funcMap && !Covers(s, base, a, |s.funcs|) && !(base <= a < Wrap32(base + s.size)))
            && (a in m' ==> m'[a] == st.funcMap[a])
  {
    var s, base := t[st.loaded[p].section], st.loaded[p].base;
    assert BaseOk(t, st.loaded[p].section, base);
    assert SectionOk(s);
    hide Inv, UninstallAll, Covers;
    UninstallAllIs(st.funcMap, s, base, |s.funcs|, a);
  }

  // No other loaded section provides anything in the runtime or link range of position p.
  lemma OthersElsewhere(t: Table, loaded: seq<Loaded>, p: nat, q: nat, a: u32, f: Func)
    requires LinkTableOk(t) && Placed(t, loaded) && Unique(loaded)
    requires p < |loaded| && q < |loaded| && p != q
    requires Provides(t[loaded[q].section], loaded[q].base, a, f)
    ensures var s, base := t[loaded[p].section], loaded[p].base;
            !InRange(base, s.size, a) && !InRange(s.link, s.size, a) && !Covers(s, base, a, |s.funcs|)
  {
    var x, y := loaded[p], loaded[q];
    assert BaseOk(t, x.section, x.base) && BaseOk(t, y.section, y.base);
    assert Apart(x.base, t[x.section].size, y.base, t[y.section].size);
    assert SectionOk(t[x.section]) && SectionOk(t[y.section]);
    ProvidedRange(t[y.section], y.base, a, f);
    NoSharedAddress(t, x, y, a);
    if Covers(t[x.section], x.base, a, |t[x.section].funcs|) {
      CoversIsProvides(t[x.section], x.base, a);
      var g :| Provides(t[x.section], x.base, a, g);
      ProvidedRange(t[x.section], x.base, a, g);
      assert false;
    }
  }

  lemma UnloadAtIndex(t: Table, st: State, p: nat)
    requires LinkTableOk(t) && Inv(t, st) && Unique(st.loaded) && p < |st.loaded|
    ensures Inv(t, UnloadAt(t, st, p))
  {
    var st' := UnloadAt(t, st, p);
    PlacedWithout(t, st.loaded, st'.loaded, p);
    hide Placed, LinkTableOk, Unique, Scan, Covers, UnloadAt;
    forall a: u32, f: Func
      ensures (a in st'.funcMap && st'.funcMap[a] == f) <==> Scan(t, st'.loaded, a, f)
    {
      ErasedOnly(t, st, p, a);
      ScanWithout(t, st.loaded, st'.loaded, p, a, f);
    }
  }

  lemma PlacedWithout(t: Table, loaded: seq<Loaded>, loaded': seq<Loaded>, p: nat)
    requires Placed(t, loaded) && p < |loaded| && loaded' == loaded[..p] + loaded[p + 1..]
    ensures Placed(t, loaded')
  {
    assert forall q :: 0 <= q < |loaded'| ==> loaded'[q] == loaded[if q < p then q else q + 1];
  }

  lemma ScanWithout(t: Table, loaded: seq<Loaded>, loaded': seq<Loaded>, p: nat, a: u32, f: Func)
    requires LinkTableOk(t) && Placed(t, loaded) && Unique(loaded) && p < |loaded|
    requires loaded' == loaded[..p] + loaded[p + 1..] && InTable(t, loaded) && InTable(t, loaded')
    ensures var s, base := t[loaded[p].section], loaded[p].base;
            Scan(t, loaded', a, f) <==>
            Scan(t, loaded, a, f) && !Covers(s, base, a, |s.funcs|) && !(base <= a < Wrap32(base + s.size))
  {
    hide LinkTableOk, Placed, Unique, Provides, Covers, Wrap32, InRange;
    if Scan(t, loaded', a, f) {
      var q' :| 0 <= q' < |loaded'| && Provides(t[loaded'[q'].section], loaded'[q'].base, a, f);
      var q := if q' < p then q' else q' + 1;
      assert loaded[q] == loaded'[q'];
      OthersElsewhere(t, loaded, p, q, a, f);
      OutOfRange(loaded[p].base, t[loaded[p].section].size, a);
    }
    ScanOther(t, loaded, loaded', p, a, f);
  }

  lemma OutOfRange(base: u32, size: u32, a: u32)
    requires !InRange(base, size, a)
    ensures !(base <= a < Wrap32(base + size))
  {}

  lemma ScanOther(t: Table, loaded: seq<Loaded>, loaded': seq<Loaded>, p: nat, a: u32, f: Func)
    requires p < |loaded| && loaded' == loaded[..p] + loaded[p + 1..] && InTable(t, loaded) && InTable(t, loaded')
    ensures var s, base := t[loaded[p].section], loaded[p].base;
            Scan(t, loaded, a, f) && !Covers(s, base, a, |s.funcs|) ==> Scan(t, loaded', a, f)
  {
    var s, base := t[loaded[p].section], loaded[p].base;
    CoversIsProvides(s, base, a);
    hide Provides, Covers;
    if Scan(t, loaded, a, f) && !Covers(s, base, a, |s.funcs|) {
      var q :| 0 <= q < |loaded| && Provides(t[loaded[q].section], loaded[q].base, a, f);
      assert q != p;
      assert loaded'[if q < p then q else q - 1] == loaded[q];
    }
  }

  // The new range is apart from every loaded one.
  ghost predicate Clear(t: Table, loaded: seq<Loaded>, i: nat, base: u32)
    requires i < |t| && InTable(t, loaded)
  {
    forall p :: 0 <= p < |loaded| ==>
      loaded[p].section != i && Apart(loaded[p].base, t[loaded[p].section].size, base, t[i].size)
  }

  lemma LoadIndex(t: Table, st: State, i: nat, base: u32)
    requires LinkTableOk(t) && Inv(t, st) && Unique(st.loaded) && i < |t|
    requires BaseOk(t, i, base) && Clear(t, st.loaded, i, base)
    ensures Inv(t, Load(t, st, i, base))
  {
    var st', s := Load(t, st, i, base), t[i];
    var n := |st.loaded|;
    assert st'.loaded[n] == Loaded(base, i) && forall p :: 0 <= p < n ==> st'.loaded[p] == st.loaded[p];
    assert Placed(t, st'.loaded) && Unique(st'.loaded);
    assert SectionOk(s);
    forall a: u32, f: Func
      ensures (a in st'.funcMap && st'.funcMap[a] == f) <==> Scan(t, st'.loaded, a, f)
    {
      LoadedAddress(t, st, st', i, base, a, f);
    }
  }

  lemma LoadedAddress(t: Table, st: State, st': State, i: nat, base: u32, a: u32, f: Func)
    requires LinkTableOk(t) && Inv(t, st) && i < |t| && st' == Load(t, st, i, base)
    requires Placed(t, st'.loaded) && Unique(st'.loaded)
    ensures (a in st'.funcMap && st'.funcMap[a] == f) <==> Scan(t, st'.loaded, a, f)
  {
    var s, n := t[i], |st.loaded|;
    assert st'.loaded[n] == Loaded(base, i) && forall p :: 0 <= p < n ==> st'.loaded[p] == st.loaded[p];
    assert BaseOk(t, i, base) && SectionOk(s);
    InstallAllIs(st.funcMap, s, base, |s.funcs|, a);
    CoversIsProvides(s, base, a);
    if Covers(s, base, a, |s.funcs|) {
      var g := st'.funcMap[a];
      assert Provides(s, base, a, g);
      assert Scan(t, st'.loaded, a, g);
      if Scan(t, st'.loaded, a, f) {
        var q :| 0 <= q <= n && Provides(t[st'.loaded[q].section], st'.loaded[q].base, a, f);
        if q < n { OthersElsewhere(t, st'.loaded, n, q, a, f); }
        ProvidesOnce(s, base, a, f, g);
      }
    } else {
      assert Scan(t, st'.loaded, a, f) <==> Scan(t, st.loaded, a, f);
    }
  }

  // --- Entry points ------------------------------------------------------------------------------

  // Everything the loader keeps.
  ghost predicate Good(t: Table, st: State) { Books(t, st) && Inv(t, st) }

  ghost predicate GoodTable(t: Table) { TableOk(t) && LinkTableOk(t) }

  lemma UnloadGood(t: Table, st: State, i: nat)
    requires GoodTable(t) && Good(t, st) && i < |t|
    ensures Good(t, Unload(t, st, i)) && !IsLoaded(Unload(t, st, i).loaded, i)
  {
    UnloadBooks(t, st, i);
    var r := FindLoaded(st.loaded, i);
    if r.Some? { UnloadAtIndex(t, st, r.value); }
  }

  lemma {:induction false} EvictGood(t: Table, st: State, i: nat, base: u32)
    requires GoodTable(t) && Good(t, st) && i < |t|
    ensures Good(t, Evict(t, st, i, base))
    decreases |st.loaded|
  {
    var r := FirstOverlap(t, st.loaded, i, base);
    if r.Some? {
      var k := st.loaded[r.value].section;
      UnloadGood(t, st, k);
      EvictGood(t, Unload(t, st, k), i, base);
    }
  }

  lemma OverlapOrApart(t: Table, loaded: seq<Loaded>, i: nat, base: u32)
    requires InTable(t, loaded) && i < |t| && FirstOverlap(t, loaded, i, base).None? && !IsLoaded(loaded, i)
    ensures Clear(t, loaded, i, base)
  {
    forall p | 0 <= p < |loaded|
      ensures loaded[p].section != i && Apart(loaded[p].base, t[loaded[p].section].size, base, t[i].size)
    {
      assert loaded[p].section != i;
      assert !Meets(t, loaded[p], i, base);
    }
  }

  lemma RegisterGood(t: Table, st: State, i: nat, base: u32)
    requires GoodTable(t) && Good(t, st) && i < |t| && base % 4 == 0 && BaseOk(t, i, base)
    ensures Good(t, Register(t, st, i, base))
  {
    var st1 := Evict(t, st, i, base);
    EvictGood(t, st, i, base);
    EvictBooks(t, st, i, base);
    RegisterBooks(t, st, i, base);
    var r := FindLoaded(st1.loaded, i);
    if r.None? {
      OverlapOrApart(t, st1.loaded, i, base);
      LoadIndex(t, st1, i, base);
    } else if st1.loaded[r.value].base != base {
      UnloadGood(t, st1, i);
      StillClear(t, st1, i, base);
      OverlapOrApart(t, Unload(t, st1, i).loaded, i, base);
      LoadIndex(t, Unload(t, st1, i), i, base);
    }
  }

  // Where a DMA puts the sections it reads from.
  ghost predicate DmaOk(t: Table, rom: u32, ram: u32, size: u32) {
    && SameAlignment(rom, ram) && size > 0 && rom + size < TWO32
    && (forall i :: 0 <= i < |t| ==> t[i].rom + t[i].size < TWO32)
    && (forall i :: 0 <= i < |t| && Overlap(rom, size, t[i].rom, t[i].size) ==>
          BaseOk(t, i, Wrap32(t[i].rom - rom + ram)))
  }

  lemma ChunkBase(t: Table, i: nat, rom: u32, ram: u32, size: u32)
    requires GoodTable(t) && DmaOk(t, rom, ram, size) && i < |t| && Overlap(rom, size, t[i].rom, t[i].size)
    ensures BaseOk(t, i, Wrap32(t[i].rom - rom + ram)) && Wrap32(t[i].rom - rom + ram) % 4 == 0
  {
    assert t[i].rom % 4 == 0;
    AlignedBase(t[i].rom, rom, ram);
  }

  lemma RegisterAtGood(t: Table, st: State, i: nat, rom: u32, ram: u32, size: u32)
    requires GoodTable(t) && Good(t, st) && DmaOk(t, rom, ram, size)
    requires i < |t| && Overlap(rom, size, t[i].rom, t[i].size)
    ensures Good(t, Register(t, st, i, Wrap32(t[i].rom - rom + ram)))
  {
    ChunkBase(t, i, rom, ram, size);
    hide Good, GoodTable, DmaOk, Overlap, Register, Wrap32, BaseOk;
    RegisterGood(t, st, i, Wrap32(t[i].rom - rom + ram));
  }

  // The sections a DMA registers as chunks are sections it reads from.
  lemma ChunkOverlaps(t: Table, rom: u32, ram: u32, size: u32)
    requires LinkTableOk(t) && DmaOk(t, rom, ram, size)
    ensures var k := LowerBound(t, rom);
            var c, d := ChunkOf(t, k, rom), FirstChunkOf(t, k, rom, size);
            && (c.Some? ==> Overlap(rom, size, t[c.value].rom, t[c.value].size))
            && (d.Some? ==> Overlap(rom, size, t[d.value].rom, t[d.value].size))
  {
    hide LowerBound, LinkTableOk, DmaOk, Overlap;
    PartOverlaps(t, LowerBound(t, rom), rom, ram, size);
    FirstPartOverlaps(t, LowerBound(t, rom), rom, ram, size);
  }

  lemma PartOverlaps(t: Table, k: nat, rom: u32, ram: u32, size: u32)
    requires LinkTableOk(t) && DmaOk(t, rom, ram, size) && k <= |t|
    ensures var c := ChunkOf(t, k, rom); c.Some? ==> Overlap(rom, size, t[c.value].rom, t[c.value].size)
  {}

  lemma FirstPartOverlaps(t: Table, k: nat, rom: u32, ram: u32, size: u32)
    requires LinkTableOk(t) && DmaOk(t, rom, ram, size) && k <= |t|
    ensures var c := FirstChunkOf(t, k, rom, size); c.Some? ==> Overlap(rom, size, t[c.value].rom, t[c.value].size)
  {
    if k < |t| { assert SectionOk(t[k]); }
  }

  lemma RegisterChunkGood(t: Table, st: State, chunk: Option<nat>, rom: u32, ram: u32, size: u32)
    requires InTable(t, st.loaded) && GoodTable(t) && Good(t, st) && DmaOk(t, rom, ram, size)
    requires chunk.Some? ==> chunk.value < |t| && Overlap(rom, size, t[chunk.value].rom, t[chunk.value].size)
    ensures Good(t, RegisterChunk(t, st, chunk, rom, ram))
  {
    hide *;
    RegisterChunkIs(t, st, chunk, rom, ram);
    if chunk.Some? { RegisterAtGood(t, st, chunk.value, rom, ram, size); }
  }

  lemma WholeOverlaps(t: Table, i: nat, rom: u32, ram: u32, size: u32)
    requires LinkTableOk(t) && DmaOk(t, rom, ram, size) && i < |t| && rom <= t[i].rom
    requires Wrap32(t[i].rom + t[i].size) <= Wrap32(rom + size)
    ensures Overlap(rom, size, t[i].rom, t[i].size)
  {
    assert SectionOk(t[i]);
  }

  lemma {:induction false} RegisterWholeGood(t: Table, st: State, lo: nat, hi: nat, rom: u32, ram: u32, size: u32)
    requires InTable(t, st.loaded) && LinkTableOk(t)
    requires GoodTable(t) && Good(t, st) && DmaOk(t, rom, ram, size) && hi <= |t|
    requires forall i :: lo <= i < hi ==> rom <= t[i].rom
    ensures Good(t, RegisterWhole(t, st, lo, hi, rom, ram, size))
    decreases hi - lo
  {
    hide Good, GoodTable, LinkTableOk, DmaOk, Register, Overlap, Wrap32, InTable, Books, Inv;
    if lo < hi {
      var st1 := RegisterWholeStep(t, st, lo, hi, rom, ram, size);
      if st1 != st {
        WholeOverlaps(t, lo, rom, ram, size);
        RegisterChunkGood(t, st, Some(lo), rom, ram, size);
      }
      RegisterWholeGood(t, st1, lo + 1, hi, rom, ram, size);
    }
  }

  lemma LoadOverlaysGood(t: Table, st: State, rom: u32, ram: u32, size: u32)
    requires GoodTable(t) && Good(t, st) && DmaOk(t, rom, ram, size) && RomSorted(t)
    ensures Good(t, LoadOverlays(t, st, rom, ram, size))
  {
    assert InTable(t, st.loaded) && LinkTableOk(t);
    var k := LowerBound(t, rom);
    var hi := UpperBound(t, Wrap32(rom + size));
    SortedFrom(t, k, rom);
    ChunkOverlaps(t, rom, ram, size);
    hide Good, GoodTable, LinkTableOk, DmaOk, RomSorted, Overlap, ChunkOf, FirstChunkOf, RegisterWhole, RegisterChunk;
    RegisterWholeGood(t, st, k, hi, rom, ram, size);
    var st1 := RegisterWhole(t, st, k, hi, rom, ram, size);
    RegisterChunkGood(t, st1, ChunkOf(t, k, rom), rom, ram, size);
    var st2 := RegisterChunk(t, st1, ChunkOf(t, k, rom), rom, ram);
    RegisterChunkGood(t, st2, FirstChunkOf(t, k, rom, size), rom, ram, size);
  }

  // Sections in ROM order, each ending before the next begins.
  ghost predicate RomSorted(t: Table) {
    forall i, j :: 0 <= i < j < |t| ==> t[i].rom + t[i].size <= t[j].rom
  }

  lemma SortedFrom(t: Table, k: nat, rom: u32)
    requires RomSorted(t) && (k < |t| ==> t[k].rom >= rom)
    ensures forall i :: k <= i < |t| ==> t[i].rom >= rom
  {
    forall i | k <= i < |t| ensures t[i].rom >= rom {
      if i > k { assert t[k].rom + t[k].size <= t[i].rom; }
    }
  }

  lemma {:induction false} UnloadRegionGood(t: Table, st: State, p: nat, ram: u32, size: u32)
    requires GoodTable(t) && Good(t, st) && p <= |st.loaded|
    ensures var r := UnloadRegion(t, st, p, ram, size); r.Some? ==> Good(t, r.value)
    decreases |st.loaded| - p
  {
    if p < |st.loaded| {
      if !Touched(t, st.loaded[p], ram, size) {
        UnloadRegionGood(t, st, p + 1, ram, size);
      } else if !Partial(t, st.loaded[p], ram, size) {
        RemovedBooks(t, st, p, UnloadAt(t, st, p));
        UnloadAtIndex(t, st, p);
        UnloadRegionGood(t, UnloadAt(t, st, p), p, ram, size);
      }
    }
  }

  // --- Fragments ---------------------------------------------------------------------------------

  // The sections a fragment placed at this base pushes out lie where their aliases are their own.
  ghost predicate SelfApartAt(t: Table, loaded: seq<Loaded>, keep: nat, base: u32)
    requires InTable(t, loaded)
  {
    forall p :: 0 <= p < |loaded| && loaded[p].base == base && loaded[p].section != keep ==>
      SelfApart(t[loaded[p].section], base)
  }

  // One step of the eviction.
  function Evicted(t: Table, st: State, p: nat, base: u32): State
    requires InTable(t, st.loaded) && p < |st.loaded|
  {
    var s := t[st.loaded[p].section];
    State(st.loaded[..p] + st.loaded[p + 1..], SetAddress(st.addresses, s.index, s.link),
          UninstallAll(st.funcMap, s, base, |s.funcs|))
  }

  lemma EvictedKeeps(t: Table, st: State, p: nat, keep: nat, base: u32)
    requires InTable(t, st.loaded) && p < |st.loaded| && SelfApartAt(t, st.loaded, keep, base)
    ensures InTable(t, Evicted(t, st, p, base).loaded) && SelfApartAt(t, Evicted(t, st, p, base).loaded, keep, base)
    ensures forall q :: p < q < |st.loaded| ==> Evicted(t, st, p, base).loaded[q - 1] == st.loaded[q]
  {
    hide SelfApart, SetAddress, UninstallAll;
    var loaded' := Evicted(t, st, p, base).loaded;
    assert forall q :: 0 <= q < |loaded'| ==> loaded'[q] == st.loaded[if q < p then q else q + 1];
  }

  // Evicting only removes addresses.
  lemma {:induction false} EvictShrinks(t: Table, st: State, p: nat, keep: nat, base: u32, a: u32)
    requires InTable(t, st.loaded) && p <= |st.loaded| && SelfApartAt(t, st.loaded, keep, base)
    ensures a in EvictAtBase(t, st, p, keep, base).funcMap ==> a in st.funcMap
    decreases |st.loaded| - p
  {
    hide SelfApart, SetAddress, UninstallAll;
    if p < |st.loaded| {
      if st.loaded[p].base != base || st.loaded[p].section == keep {
        EvictShrinks(t, st, p + 1, keep, base, a);
      } else {
        var s := t[st.loaded[p].section];
        EvictedKeeps(t, st, p, keep, base);
        UninstallAllIs(st.funcMap, s, base, |s.funcs|, a);
        EvictShrinks(t, Evicted(t, st, p, base), p, keep, base, a);
      }
    }
  }

  // Nothing the evicted section at position q covered is left.
  lemma {:induction false} EvictedGone(t: Table, st: State, p: nat, q: nat, keep: nat, base: u32, a: u32)
    requires InTable(t, st.loaded) && p <= q < |st.loaded| && SelfApartAt(t, st.loaded, keep, base)
    requires st.loaded[q].base == base && st.loaded[q].section != keep
    requires var s := t[st.loaded[q].section]; Covers(s, base, a, |s.funcs|)
    ensures a !in EvictAtBase(t, st, p, keep, base).funcMap
    decreases |st.loaded| - p
  {
    hide SelfApart, SetAddress, UninstallAll, Covers;
    if st.loaded[p].base != base || st.loaded[p].section == keep {
      EvictedGone(t, st, p + 1, q, keep, base, a);
    } else {
      var s := t[st.loaded[p].section];
      EvictedKeeps(t, st, p, keep, base);
      if p == q {
        UninstallAllIs(st.funcMap, s, base, |s.funcs|, a);
        EvictShrinks(t, Evicted(t, st, p, base), p, keep, base, a);
      } else {
        EvictedGone(t, Evicted(t, st, p, base), p, q - 1, keep, base, a);
      }
    }
  }

  // The fragment's earlier live range.
  predicate Superseded(previous: Option<(u32, u32)>, a: u32) {
    && previous.Some? && previous.value.1 != 0
    && previous.value.0 <= a < Wrap32(previous.value.0 + previous.value.1)
  }

  // A section placed at the same base had a function here.
  ghost predicate PushedOut(t: Table, loaded: seq<Loaded>, keep: nat, base: u32, a: u32)
    requires InTable(t, loaded)
  {
    exists q :: 0 <= q < |loaded| && loaded[q].base == base && loaded[q].section != keep
                && Covers(t[loaded[q].section], base, a, |t[loaded[q].section].funcs|)
  }

  // After a fragment is bound at a base, an address its section covers runs its function, and
  // no other address of its earlier live range, nor of a section it pushed out, maps anywhere.
  lemma PlacedFunctions(t: Table, st: State, i: nat, base: u32, previous: Option<(u32, u32)>, a: u32)
    requires InTable(t, st.loaded) && i < |t| && SelfApart(t[i], base) && SelfApartAt(t, st.loaded, i, base)
    ensures var s, m := t[i], Place(t, st, Some(i), base, previous).funcMap;
            if Covers(s, base, a, |s.funcs|) then a in m && Provides(s, base, a, m[a])
            else Superseded(previous, a) || PushedOut(t, st.loaded, i, base, a) ==> a !in m
  {
    hide SelfApart, SetAddress, InstallAll, UninstallAll, Covers, EvictAtBase, Rebase, Wrap32;
    var s, st1 := t[i], EvictAtBase(t, st, 0, i, base);
    var m1 := if previous.Some? then RangeErase(st1.funcMap, previous.value.0, previous.value.1) else st1.funcMap;
    InstallAllIs(m1, s, base, |s.funcs|, a);
    if PushedOut(t, st.loaded, i, base, a) {
      var q :| 0 <= q < |st.loaded| && st.loaded[q].base == base && st.loaded[q].section != i
               && Covers(t[st.loaded[q].section], base, a, |t[st.loaded[q].section].funcs|);
      EvictedGone(t, st, 0, q, i, base, a);
    }
  }
}
