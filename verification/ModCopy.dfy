// Copying a code mod's sections into guest memory (mods.cpp): data, then cleared bss.
module ModCopy {
  import opened Words
  import opened Rdram
  import opened ModLayout
  import opened ModLoad

  // Byte i of section s in memory: the binary's data, then cleared bss.
  function Image(binary: seq<byte>, s: Section, i: nat): byte
    requires s.rom + s.size <= |binary|
  {
    if i < s.size then binary[s.rom + i] else 0
  }

  ghost predicate Copied(m: seq<byte>, binary: seq<byte>, s: Section, a: nat)
    requires s.rom + s.size <= |binary|
  {
    forall x: nat :: a <= x < a + s.size + s.bss ==> Guest(m, x) == Image(binary, s, x - a)
  }

  // Bytes lo..hi of the two memories may differ, all others are equal.
  ghost predicate SameOutside(m: seq<byte>, n: seq<byte>, lo: nat, hi: nat) {
    |n| == |m| && forall x: nat :: x < lo || hi <= x ==> Guest(n, x) == Guest(m, x)
  }

  method PlaceSection(mem: array<byte>, binary: seq<byte>, s: Section, a: nat)
    requires mem.Length % 4 == 0 && s.rom + s.size <= |binary| && a + s.size + s.bss <= mem.Length
    modifies mem
    ensures Copied(mem[..], binary, s, a) && SameOutside(old(mem[..]), mem[..], a, a + s.size + s.bss)
  {
    hide Guest;
    ghost var m0 := mem[..];
    for i := 0 to s.size
      invariant forall x: nat :: Guest(mem[..], x) == if a <= x < a + i then binary[s.rom + (x - a)] else Guest(m0, x)
    {
      StoreGuest(mem, a + i, binary[s.rom + i]);
    }
    ghost var m1 := mem[..];
    for i := 0 to s.bss
      invariant forall x: nat :: Guest(mem[..], x) == if a + s.size <= x < a + s.size + i then 0 else Guest(m1, x)
    {
      StoreGuest(mem, a + s.size + i, 0);
    }
  }

  ghost predicate SameBelow(m: seq<byte>, n: seq<byte>, lo: nat) {
    forall x: nat :: x < lo ==> Guest(n, x) == Guest(m, x)
  }

  // What the source demands: sections inside the binary, and room for the mod in memory.
  ghost predicate Fits(mod: Mod, load: u32, size: nat) {
    && load >= KSEG0 && AddressBefore(mod.sections, load, |mod.sections|) <= KSEG0 + size && size <= KSEG0
    && forall k :: 0 <= k < |mod.sections| && !mod.sections[k].fixed ==>
         mod.sections[k].rom + mod.sections[k].size <= |mod.binary|
  }

  ghost predicate Addresses(sections: seq<Section>, load: nat, addrs: seq<u32>) {
    |addrs| <= |sections| && forall k :: 0 <= k < |addrs| ==> addrs[k] == LoadAddress(sections, load, k)
  }

  ghost predicate AllCopied(m: seq<byte>, mod: Mod, load: u32, size: nat, n: nat)
    requires Fits(mod, load, size) && n <= |mod.sections|
  {
    forall k :: 0 <= k < n && !mod.sections[k].fixed && LoadAddress(mod.sections, load, k) >= KSEG0 ==>
      Copied(m, mod.binary, mod.sections[k], LoadAddress(mod.sections, load, k) - KSEG0)
  }

  method PlaceSections(mem: array<byte>, mod: Mod, load: u32) returns (addrs: seq<u32>, end: nat)
    requires mem.Length % 4 == 0 && Fits(mod, load, mem.Length)
    modifies mem
    ensures |addrs| == |mod.sections| && Addresses(mod.sections, load, addrs)
    ensures end == AddressBefore(mod.sections, load, |mod.sections|) && end >= load
    ensures AllCopied(mem[..], mod, load, mem.Length, |mod.sections|)
    ensures SameOutside(old(mem[..]), mem[..], load - KSEG0, end - KSEG0)
  {
    hide Guest, Copied, LoadAddress;
    var sections := mod.sections;
    addrs, end := [], load;
    ghost var m0 := mem[..];
    for k := 0 to |sections|
      invariant |addrs| == k && Addresses(sections, load, addrs)
      invariant end == AddressBefore(sections, load, k) && end >= load
      invariant AllCopied(mem[..], mod, load, mem.Length, k)
      invariant SameOutside(m0, mem[..], load - KSEG0, end - KSEG0)
    {
      var s := sections[k];
      AddressesGrow(sections, load, k + 1, |sections|);
      AddressIs(sections, load, k);
      if s.fixed {
        addrs := addrs + [s.ram];
      } else {
        ghost var m := mem[..];
        PlaceSection(mem, mod.binary, s, end - KSEG0);
        StillCopied(m, mem[..], mod, load, mem.Length, k);
        addrs := addrs + [end];
        end := Align16(end + s.size + s.bss) + GAP;
      }
    }
  }

  lemma AddressIs(sections: seq<Section>, load: nat, k: nat)
    requires k < |sections|
    ensures LoadAddress(sections, load, k) ==
            if sections[k].fixed then sections[k].ram else AddressBefore(sections, load, k)
  {}

  // Placing a section leaves those placed before it as they were.
  lemma StillCopied(m: seq<byte>, n: seq<byte>, mod: Mod, load: u32, size: nat, k: nat)
    requires Fits(mod, load, size) && k < |mod.sections| && AllCopied(m, mod, load, size, k)
    requires AddressBefore(mod.sections, load, k) >= KSEG0
    requires SameBelow(m, n, AddressBefore(mod.sections, load, k) - KSEG0)
    ensures AllCopied(n, mod, load, size, k)
  {
    hide Guest, Image, LoadAddress;
    forall j | 0 <= j < k && !mod.sections[j].fixed && LoadAddress(mod.sections, load, j) >= KSEG0
      ensures Copied(n, mod.binary, mod.sections[j], LoadAddress(mod.sections, load, j) - KSEG0)
    {
      SectionsApart(mod.sections, load, j, k);
    }
  }
}
