// What initialising a code mod does to memory, relocation by relocation and byte by byte.
module ModWords {
  import opened Words
  import opened Rdram
  import opened ModLayout
  import opened ModLoad
  import opened ModCopy

  // --- Which relocations are applied ----------------------------------------------------------

  // Relocation j of section k is of a whole word, against a section of the mod itself.
  predicate OwnWord(sections: seq<Section>, k: nat, j: nat) {
    && k < |sections| && j < |sections[k].relocs|
    && sections[k].relocs[j].word && !sections[k].relocs[j].external
  }

  lemma {:induction false} ItemsHold(sections: seq<Section>, k: nat, j: nat, k0: nat, j0: nat)
    requires Position(sections, k, j) && OwnWord(sections, k0, j0) && (k0 < k || (k0 == k && j0 < j))
    ensures Item(k0, sections[k0].relocs[j0]) in Items(sections, k, j)
    decreases k, j
  {
    if j > 0 {
      if !(k0 == k && j0 == j - 1) { ItemsHold(sections, k, j - 1, k0, j0); }
    } else {
      ItemsHold(sections, k - 1, |sections[k - 1].relocs|, k0, j0);
    }
  }

  lemma {:induction false} ItemsFrom(sections: seq<Section>, k: nat, j: nat, i: nat) returns (j0: nat)
    requires Position(sections, k, j) && i < |Items(sections, k, j)|
    ensures var item := Items(sections, k, j)[i];
            OwnWord(sections, item.section, j0) && item.reloc == sections[item.section].relocs[j0]
    decreases k, j
  {
    if j > 0 {
      if i < |Items(sections, k, j - 1)| { j0 := ItemsFrom(sections, k, j - 1, i); } else { j0 := j - 1; }
    } else {
      j0 := ItemsFrom(sections, k - 1, |sections[k - 1].relocs|, i);
    }
  }

  // The words applied are exactly these.
  lemma OwnWordListed(sections: seq<Section>, k: nat, j: nat) returns (i: nat)
    requires OwnWord(sections, k, j)
    ensures i < |AllItems(sections)| && AllItems(sections)[i] == Item(k, sections[k].relocs[j])
  {
    ItemsHold(sections, |sections|, 0, k, j);
    i :| 0 <= i < |AllItems(sections)| && AllItems(sections)[i] == Item(k, sections[k].relocs[j]);
  }

  // Every such relocation is against a section there is.
  ghost predicate TargetsExist(sections: seq<Section>) {
    forall k: nat, j: nat :: OwnWord(sections, k, j) ==> sections[k].relocs[j].target < |sections|
  }

  lemma LoadsExactly(sections: seq<Section>)
    ensures Loads(sections) <==> TargetsExist(sections)
  {
    if Loads(sections) {
      forall k: nat, j: nat | OwnWord(sections, k, j) ensures sections[k].relocs[j].target < |sections| {
        var i := OwnWordListed(sections, k, j);
        assert AllItems(sections)[i].reloc.target < |sections|;
      }
    }
    if TargetsExist(sections) {
      forall i | 0 <= i < |AllItems(sections)| ensures AllItems(sections)[i].reloc.target < |sections| {
        var j := ItemsFrom(sections, |sections|, 0, i);
        assert OwnWord(sections, AllItems(sections)[i].section, j);
      }
    }
  }

  // --- One mod ----------------------------------------------------------------------------------

  // Where the words of a mod's local relocations lie once its sections are loaded: in memory,
  // on word boundaries, and each word named once.
  ghost predicate RelocsOk(sections: seq<Section>, addrs: seq<u32>, size: nat)
    requires |addrs| == |sections|
  {
    var items := AllItems(sections);
    && (forall i :: 0 <= i < |items| ==>
      At(sections, addrs, items[i]) % 4 == 0 && At(sections, addrs, items[i]) + 4 <= size)
    && (forall i, j :: 0 <= i < j < |items| ==> At(sections, addrs, items[i]) != At(sections, addrs, items[j]))
  }

  // Where the sections of a mod are loaded.
  ghost function Addrs(sections: seq<Section>, load: nat): (r: seq<u32>)
    ensures |r| == |sections|
  {
    seq(|sections|, k requires 0 <= k < |sections| => Wrap32(LoadAddress(sections, load, k)))
  }

  ghost function LoadedWords(sections: seq<Section>, load: nat): (r: seq<Fixup>)
    requires Loads(sections)
    ensures |r| == |AllItems(sections)|
  {
    Fixups(sections, Addrs(sections, load), AllItems(sections))
  }

  function Be32(b0: byte, b1: byte, b2: byte, b3: byte): u32 { b0 * 0x100_0000 + b1 * 0x1_0000 + b2 * 0x100 + b3 }

  // The word at offset o of a section's image.
  function ImageWord(binary: seq<byte>, s: Section, o: nat): u32
    requires s.rom + s.size <= |binary|
  {
    Be32(Image(binary, s, o), Image(binary, s, o + 1), Image(binary, s, o + 2), Image(binary, s, o + 3))
  }

  predicate Holds(s: Section, a: nat, lo: nat, hi: nat) { a <= lo && hi <= a + s.size + s.bss }

  // A placed section: its image, but for the relocated words, which hold what the image had,
  // displaced with their target's section.
  ghost predicate SectionPlaced(m: seq<byte>, binary: seq<byte>, s: Section, a: nat, fs: seq<Fixup>)
    requires s.rom + s.size <= |binary|
  {
    && (forall x: nat :: Holds(s, a, x, x + 1) && !InFixups(fs, x) ==> Guest(m, x) == Image(binary, s, x - a))
    && (forall i :: 0 <= i < |fs| && Holds(s, a, fs[i].at, fs[i].at + 4) ==>
          LoadBe32(m, fs[i].at) == Moved(ImageWord(binary, s, fs[i].at - a), fs[i].delta))
  }

  lemma CopiedWord(m: seq<byte>, binary: seq<byte>, s: Section, a: nat, at: nat)
    requires s.rom + s.size <= |binary| && Copied(m, binary, s, a) && Holds(s, a, at, at + 4)
    ensures LoadBe32(m, at) == ImageWord(binary, s, at - a)
  {
    assert Guest(m, at) == Image(binary, s, at - a) && Guest(m, at + 1) == Image(binary, s, at + 1 - a);
    assert Guest(m, at + 2) == Image(binary, s, at + 2 - a) && Guest(m, at + 3) == Image(binary, s, at + 3 - a);
  }

  lemma MovedSection(m: seq<byte>, n: seq<byte>, binary: seq<byte>, s: Section, a: nat,
                     fs: seq<Fixup>)
    requires s.rom + s.size <= |binary| && Copied(m, binary, s, a) && WordsMoved(fs, m, n)
    ensures SectionPlaced(n, binary, s, a, fs)
  {
    hide Guest, LoadBe32, Image, ImageWord, InFixups, Moved;
    forall i | 0 <= i < |fs| && Holds(s, a, fs[i].at, fs[i].at + 4)
      ensures LoadBe32(n, fs[i].at) == Moved(ImageWord(binary, s, fs[i].at - a), fs[i].delta)
    {
      CopiedWord(m, binary, s, a, fs[i].at);
    }
  }

  // Everything a mod's load put in memory.
  ghost predicate ModPlaced(m: seq<byte>, mod: Mod, load: nat)
    requires Loads(mod.sections)
  {
    forall k :: 0 <= k < |mod.sections| && !mod.sections[k].fixed ==>
      && mod.sections[k].rom + mod.sections[k].size <= |mod.binary| && LoadAddress(mod.sections, load, k) >= KSEG0
      && var a := LoadAddress(mod.sections, load, k) - KSEG0;
         SectionPlaced(m, mod.binary, mod.sections[k], a, LoadedWords(mod.sections, load))
  }

  // Nothing but the mod's span and its relocated words has changed.
  ghost predicate OnlySpan(m: seq<byte>, n: seq<byte>, mod: Mod, load: nat)
    requires Loads(mod.sections) && load >= KSEG0
  {
    && |n| == |m|
    && forall x: nat ::
         (x < load - KSEG0 || load - KSEG0 + Used(mod.sections, load) <= x)
         && !InFixups(LoadedWords(mod.sections, load), x) ==>
           Guest(n, x) == Guest(m, x)
  }

  // A word to relocate outside the mod's span, as those of fixed sections are.
  predicate Outside(mod: Mod, load: nat, at: nat)
    requires load >= KSEG0
  {
    at + 4 <= load - KSEG0 || load - KSEG0 + Used(mod.sections, load) <= at
  }

  // Such words hold what they held before, displaced with their targets' sections.
  ghost predicate OutsideMoved(m: seq<byte>, n: seq<byte>, mod: Mod, load: nat)
    requires Loads(mod.sections) && load >= KSEG0
  {
    var fs := LoadedWords(mod.sections, load);
    forall i :: 0 <= i < |fs| && Outside(mod, load, fs[i].at) ==>
      LoadBe32(n, fs[i].at) == Moved(LoadBe32(m, fs[i].at), fs[i].delta)
  }

  lemma AddrsAre(mod: Mod, load: u32, size: nat, addrs: seq<u32>)
    requires Fits(mod, load, size) && |addrs| == |mod.sections| && Addresses(mod.sections, load, addrs)
    ensures addrs == Addrs(mod.sections, load)
  {
    hide LoadAddress;
  }

  lemma Initialised(m0: seq<byte>, m: seq<byte>, n: seq<byte>, mod: Mod, load: u32, addrs: seq<u32>,
                    end: nat)
    requires |m| % 4 == 0 && Fits(mod, load, |m|) && Loads(mod.sections) && addrs == Addrs(mod.sections, load)
    requires RelocsOk(mod.sections, addrs, |m|)
    requires end == AddressBefore(mod.sections, load, |mod.sections|) && end >= load
    requires AllCopied(m, mod, load, |m|, |mod.sections|) && SameOutside(m0, m, load - KSEG0, end - KSEG0)
    requires n == Apply(m, Fixups(mod.sections, addrs, AllItems(mod.sections)))
    ensures end - load == Used(mod.sections, load) && ModPlaced(n, mod, load) && OnlySpan(m0, n, mod, load)
    ensures OutsideMoved(m0, n, mod, load)
  {
    hide Guest, LoadBe32, LoadAddress, Copied, SectionPlaced, InFixups, AllItems, Apply, AddressBefore, Fixups, Moved;
    var fs := LoadedWords(mod.sections, load);
    WordsAreOk(mod.sections, addrs, |m|);
    ApplyIs(m, fs);
    forall k | 0 <= k < |mod.sections| && !mod.sections[k].fixed
      ensures LoadAddress(mod.sections, load, k) >= KSEG0
      ensures SectionPlaced(n, mod.binary, mod.sections[k], LoadAddress(mod.sections, load, k) - KSEG0, fs)
    {
      AddressIs(mod.sections, load, k);
      AddressesGrow(mod.sections, load, 0, k);
      MovedSection(m, n, mod.binary, mod.sections[k], LoadAddress(mod.sections, load, k) - KSEG0, fs);
    }
    forall i | 0 <= i < |fs| && Outside(mod, load, fs[i].at)
      ensures LoadBe32(n, fs[i].at) == Moved(LoadBe32(m0, fs[i].at), fs[i].delta)
    {
      SameWord(m0, m, fs[i].at);
    }
  }

  lemma WordsAreOk(sections: seq<Section>, addrs: seq<u32>, size: nat)
    requires |addrs| == |sections| && Loads(sections) && RelocsOk(sections, addrs, size)
    ensures WordsOk(Fixups(sections, addrs, AllItems(sections)), size)
  {
    hide At, AllItems;
  }

  // --- What they do to memory -------------------------------------------------------------------

  // Where relocation j of section k lies in memory, with the sections loaded at addrs.
  function WordAt(sections: seq<Section>, addrs: seq<u32>, k: nat, j: nat): u32
    requires OwnWord(sections, k, j) && |addrs| == |sections|
  {
    Wrap32(sections[k].relocs[j].address - sections[k].ram + addrs[k] - 0x8000_0000)
  }

  // A byte of no such word.
  ghost predicate Unrelocated(sections: seq<Section>, addrs: seq<u32>, x: nat)
    requires |addrs| == |sections|
  {
    forall k: nat, j: nat :: OwnWord(sections, k, j) ==>
      !(WordAt(sections, addrs, k, j) <= x < WordAt(sections, addrs, k, j) + 4)
  }

  // The host offset section p is loaded at.
  function Base(addrs: seq<u32>, p: nat): int
    requires p < |addrs|
  {
    addrs[p] as int - 0x8000_0000
  }

  // Section p is placed, with host offsets lo..hi inside it.
  predicate InPlaced(mod: Mod, addrs: seq<u32>, p: nat, lo: int, hi: int)
    requires |addrs| == |mod.sections|
  {
    && p < |mod.sections| && !mod.sections[p].fixed
    && mod.sections[p].rom + mod.sections[p].size <= |mod.binary|
    && Base(addrs, p) <= lo < hi <= Base(addrs, p) + mod.sections[p].size + mod.sections[p].bss
  }

  // What was placed at offset o of section s: its data, then zeroes.
  function PlacedByte(mod: Mod, s: Section, o: int): int
    requires s.rom + s.size <= |mod.binary| && 0 <= o
  {
    if o < s.size then mod.binary[s.rom + o] as int else 0
  }

  function PlacedWord(mod: Mod, s: Section, o: int): int
    requires s.rom + s.size <= |mod.binary| && 0 <= o
  {
    PlacedByte(mod, s, o) * 0x100_0000 + PlacedByte(mod, s, o + 1) * 0x1_0000
    + PlacedByte(mod, s, o + 2) * 0x100 + PlacedByte(mod, s, o + 3)
  }

  // The word holds `was` moved with its target: as far from where the target is loaded as `was`
  // is from where it is linked.
  predicate Follows(m: seq<byte>, mod: Mod, addrs: seq<u32>, k: nat, j: nat, was: int)
    requires OwnWord(mod.sections, k, j) && |addrs| == |mod.sections|
  {
    var target := mod.sections[k].relocs[j].target;
    target < |mod.sections| &&
    Wrap32(LoadBe32(m, WordAt(mod.sections, addrs, k, j)) - addrs[target]) == Wrap32(was - mod.sections[target].ram)
  }

  // A placed section holds what was placed, its own data and zeroes, but for the words relocated,
  // each of which has moved with its target.
  ghost predicate Stands(m: seq<byte>, mod: Mod, addrs: seq<u32>, p: nat)
    requires |addrs| == |mod.sections|
  {
    && (forall k: nat, j: nat :: OwnWord(mod.sections, k, j) ==>
          var at := WordAt(mod.sections, addrs, k, j);
          InPlaced(mod, addrs, p, at, at + 4) ==>
            Follows(m, mod, addrs, k, j, PlacedWord(mod, mod.sections[p], at - Base(addrs, p))))
    && (forall x: nat :: InPlaced(mod, addrs, p, x, x + 1) && Unrelocated(mod.sections, addrs, x) ==>
          Guest(m, x) == PlacedByte(mod, mod.sections[p], x - Base(addrs, p)))
  }

  // Host offsets lo..hi lie before or after the mod's span, `used` bytes from where it is loaded.
  predicate OutOfSpan(load: nat, used: nat, lo: int, hi: int) {
    hi <= load - 0x8000_0000 || load - 0x8000_0000 + used <= lo
  }

  // Outside the span no byte has changed but those of relocated words, each of which has moved
  // with its target from what it was.
  ghost predicate StandsOutside(m: seq<byte>, n: seq<byte>, mod: Mod, addrs: seq<u32>, load: nat, used: nat)
    requires |addrs| == |mod.sections|
  {
    && (forall k: nat, j: nat :: OwnWord(mod.sections, k, j) ==>
          var at := WordAt(mod.sections, addrs, k, j);
          OutOfSpan(load, used, at, at + 4) ==>
            Follows(n, mod, addrs, k, j, LoadBe32(m, at)))
    && (forall x: nat :: OutOfSpan(load, used, x, x + 1) && Unrelocated(mod.sections, addrs, x) ==>
          Guest(n, x) == Guest(m, x))
  }

  lemma WordListed(mod: Mod, load: nat, k: nat, j: nat) returns (i: nat)
    requires Loads(mod.sections) && OwnWord(mod.sections, k, j)
    ensures i < |LoadedWords(mod.sections, load)|
    ensures var f := LoadedWords(mod.sections, load)[i];
            var target := mod.sections[k].relocs[j].target;
            && f.at == WordAt(mod.sections, Addrs(mod.sections, load), k, j) && target < |mod.sections|
            && f.delta == Addrs(mod.sections, load)[target] - mod.sections[target].ram
  {
    i := OwnWordListed(mod.sections, k, j);
    hide AllItems, LoadAddress;
  }

  lemma UnlistedByte(mod: Mod, load: nat, x: nat)
    requires Loads(mod.sections) && Unrelocated(mod.sections, Addrs(mod.sections, load), x)
    ensures !InFixups(LoadedWords(mod.sections, load), x)
  {
    var fs := LoadedWords(mod.sections, load);
    forall i | 0 <= i < |fs| ensures !InWord(fs[i].at, x) {
      var j := ItemsFrom(mod.sections, |mod.sections|, 0, i);
      hide Items, LoadAddress;
      assert OwnWord(mod.sections, AllItems(mod.sections)[i].section, j);
    }
  }

  lemma PlacedBytes(mod: Mod, s: Section, o: nat)
    requires s.rom + s.size <= |mod.binary|
    ensures Image(mod.binary, s, o) == PlacedByte(mod, s, o)
    ensures ImageWord(mod.binary, s, o) == PlacedWord(mod, s, o)
  {}

  lemma MovedFollows(m: seq<byte>, mod: Mod, load: nat, k: nat, j: nat, was: u32)
    requires OwnWord(mod.sections, k, j)
    requires var target := mod.sections[k].relocs[j].target;
             target < |mod.sections| &&
             LoadBe32(m, WordAt(mod.sections, Addrs(mod.sections, load), k, j))
             == Moved(was, Addrs(mod.sections, load)[target] - mod.sections[target].ram)
    ensures Follows(m, mod, Addrs(mod.sections, load), k, j, was)
  {
    hide LoadBe32, LoadAddress, Moved, WordAt, Addrs;
    var target := mod.sections[k].relocs[j].target;
    OffsetKept(was, mod.sections[target].ram, Addrs(mod.sections, load)[target]);
  }

  // An own word of a placed section keeps its distance from its target: what it had from where the
  // target is linked it has from where the target is loaded, modulo 2^32.
  lemma WordKeepsOffset(m: seq<byte>, mod: Mod, load: nat, p: nat, k: nat, j: nat)
    requires Loads(mod.sections) && ModPlaced(m, mod, load) && OwnWord(mod.sections, k, j)
    requires p < |mod.sections| && LoadAddress(mod.sections, load, p) < TWO32
    requires var addrs := Addrs(mod.sections, load);
             InPlaced(mod, addrs, p, WordAt(mod.sections, addrs, k, j), WordAt(mod.sections, addrs, k, j) + 4)
    ensures var addrs := Addrs(mod.sections, load);
            Follows(m, mod, addrs, k, j,
                    PlacedWord(mod, mod.sections[p], WordAt(mod.sections, addrs, k, j) - Base(addrs, p)))
  {
    hide LoadBe32, Guest, LoadAddress, WordAt, Image, ImageWord, PlacedByte, PlacedWord, Moved, LoadedWords;
    var s, at := mod.sections[p], WordAt(mod.sections, Addrs(mod.sections, load), k, j);
    var a := LoadAddress(mod.sections, load, p) - KSEG0;
    assert SectionPlaced(m, mod.binary, s, a, LoadedWords(mod.sections, load));
    hide Addrs;
    var i := WordListed(mod, load, k, j);
    PlacedBytes(mod, s, at - a);
    MovedFollows(m, mod, load, k, j, ImageWord(mod.binary, s, at - a));
  }

  lemma StandingByte(m: seq<byte>, mod: Mod, load: nat, p: nat, x: nat)
    requires Loads(mod.sections) && ModPlaced(m, mod, load)
    requires p < |mod.sections| && LoadAddress(mod.sections, load, p) < TWO32
    requires var addrs := Addrs(mod.sections, load);
             InPlaced(mod, addrs, p, x, x + 1) && Unrelocated(mod.sections, addrs, x)
    ensures Guest(m, x) == PlacedByte(mod, mod.sections[p], x - Base(Addrs(mod.sections, load), p))
  {
    hide LoadBe32, Guest, LoadAddress, Image, ImageWord, PlacedByte, PlacedWord, Moved, LoadedWords, Unrelocated;
    var a := LoadAddress(mod.sections, load, p) - KSEG0;
    assert SectionPlaced(m, mod.binary, mod.sections[p], a, LoadedWords(mod.sections, load));
    UnlistedByte(mod, load, x);
    PlacedBytes(mod, mod.sections[p], x - a);
  }

  // A mod that has been placed stands in each of its sections.
  lemma PlacedStands(m: seq<byte>, mod: Mod, load: nat, p: nat)
    requires Loads(mod.sections) && ModPlaced(m, mod, load) && p < |mod.sections|
    requires LoadAddress(mod.sections, load, p) < TWO32
    ensures Stands(m, mod, Addrs(mod.sections, load), p)
  {
    hide Loads, ModPlaced, LoadAddress, Addrs, WordAt, Follows, PlacedWord, PlacedByte, Guest, Unrelocated;
    var addrs := Addrs(mod.sections, load);
    forall k: nat, j: nat
      | OwnWord(mod.sections, k, j)
        && InPlaced(mod, addrs, p, WordAt(mod.sections, addrs, k, j), WordAt(mod.sections, addrs, k, j) + 4)
      ensures Follows(m, mod, addrs, k, j,
                      PlacedWord(mod, mod.sections[p], WordAt(mod.sections, addrs, k, j) - Base(addrs, p)))
    {
      WordKeepsOffset(m, mod, load, p, k, j);
    }
    forall x: nat | InPlaced(mod, addrs, p, x, x + 1) && Unrelocated(mod.sections, addrs, x)
      ensures Guest(m, x) == PlacedByte(mod, mod.sections[p], x - Base(addrs, p))
    {
      StandingByte(m, mod, load, p, x);
    }
  }

  // Initialising a mod succeeds exactly when every own word's target exists; then every placed
  // section stands, and outside the span nothing changed but the mod's own words.
  lemma InitialisedExactly(m: seq<byte>, n: seq<byte>, mod: Mod, load: u32)
    requires Loads(mod.sections) && Fits(mod, load, |n|)
    requires ModPlaced(n, mod, load) && OnlySpan(m, n, mod, load) && OutsideMoved(m, n, mod, load)
    ensures var addrs := Addrs(mod.sections, load);
            && TargetsExist(mod.sections)
            && (forall p :: 0 <= p < |mod.sections| ==> Stands(n, mod, addrs, p))
            && StandsOutside(m, n, mod, addrs, load, Used(mod.sections, load))
  {
    LoadsExactly(mod.sections);
    forall p | 0 <= p < |mod.sections| ensures Stands(n, mod, Addrs(mod.sections, load), p) {
      LoadFits(mod, load, |n|, p);
      PlacedStands(n, mod, load, p);
    }
    OutsideStands(m, n, mod, load);
  }

  lemma LoadFits(mod: Mod, load: u32, size: nat, p: nat)
    requires Fits(mod, load, size) && p < |mod.sections|
    ensures LoadAddress(mod.sections, load, p) < TWO32
  {
    AddressesGrow(mod.sections, load, p + 1, |mod.sections|);
  }

  // So does an own word outside the mod's span, such as one of a fixed section, as the load found
  // it.
  lemma OutsideKeepsOffset(m: seq<byte>, n: seq<byte>, mod: Mod, load: nat, k: nat, j: nat)
    requires Loads(mod.sections) && load >= KSEG0 && OutsideMoved(m, n, mod, load) && OwnWord(mod.sections, k, j)
    requires var at := WordAt(mod.sections, Addrs(mod.sections, load), k, j);
             OutOfSpan(load, Used(mod.sections, load), at, at + 4)
    ensures var addrs := Addrs(mod.sections, load);
            Follows(n, mod, addrs, k, j, LoadBe32(m, WordAt(mod.sections, addrs, k, j)))
  {
    hide LoadBe32, Guest, WordAt, Moved, Addrs, Used, LoadedWords;
    var i := WordListed(mod, load, k, j);
    MovedFollows(n, mod, load, k, j, LoadBe32(m, WordAt(mod.sections, Addrs(mod.sections, load), k, j)));
  }

  lemma OutsideStands(m: seq<byte>, n: seq<byte>, mod: Mod, load: u32)
    requires Loads(mod.sections) && load >= KSEG0
    requires OnlySpan(m, n, mod, load) && OutsideMoved(m, n, mod, load)
    ensures StandsOutside(m, n, mod, Addrs(mod.sections, load), load, Used(mod.sections, load))
  {
    hide LoadBe32, Guest, LoadAddress, WordAt, Moved, Addrs, Used, LoadedWords, InFixups;
    var addrs, used, fs := Addrs(mod.sections, load), Used(mod.sections, load), LoadedWords(mod.sections, load);
    forall k: nat, j: nat | OwnWord(mod.sections, k, j)
                  && OutOfSpan(load, used, WordAt(mod.sections, addrs, k, j), WordAt(mod.sections, addrs, k, j) + 4)
      ensures Follows(n, mod, addrs, k, j, LoadBe32(m, WordAt(mod.sections, addrs, k, j)))
    {
      OutsideKeepsOffset(m, n, mod, load, k, j);
    }
    forall x: nat | OutOfSpan(load, used, x, x + 1) && Unrelocated(mod.sections, addrs, x)
      ensures Guest(n, x) == Guest(m, x)
    {
      UnlistedByte(mod, load, x);
    }
  }
}
