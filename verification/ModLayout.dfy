// Where code mods go in guest memory (mods.cpp): each section's data and bss, a rounded-up
// end and a guard gap, one mod after the other.
module ModLayout {
  import opened Words

  datatype Reloc = Reloc(address: u32, word: bool, external: bool, target: nat)

  datatype Section = Section(rom: nat, ram: u32, size: nat, bss: nat, fixed: bool, relocs: seq<Reloc>)

  datatype Mod = Mod(sections: seq<Section>, binary: seq<byte>)

  const GAP := 0x400

  function Align16(a: nat): (r: nat)
    ensures a <= r < a + 16 && r % 16 == 0
  {
    a + 15 - (a + 15) % 16
  }

  // The placement address once section s has been placed at `at`.
  function After(at: nat, s: Section): (r: nat)
    ensures s.fixed ==> r == at
    ensures !s.fixed ==> at + s.size + s.bss + GAP <= r < at + s.size + s.bss + GAP + 16
  {
    if s.fixed then at else Align16(at + s.size + s.bss) + GAP
  }

  // The placement address when section k's turn comes.
  function AddressBefore(sections: seq<Section>, load: nat, k: nat): nat
    requires k <= |sections|
  {
    if k == 0 then load else After(AddressBefore(sections, load, k - 1), sections[k - 1])
  }

  // Fixed sections keep their declared address.
  function LoadAddress(sections: seq<Section>, load: nat, k: nat): nat
    requires k < |sections|
  {
    if sections[k].fixed then sections[k].ram else AddressBefore(sections, load, k)
  }

  function Used(sections: seq<Section>, load: nat): nat {
    var end := AddressBefore(sections, load, |sections|);
    if end < load then 0 else end - load
  }

  // --- Relocations, in the order the second pass meets them ----------------------------------

  datatype Item = Item(section: nat, reloc: Reloc)

  predicate IsLocal(r: Reloc) { r.word && !r.external }

  predicate Position(sections: seq<Section>, k: nat, j: nat) {
    k <= |sections| && (if k < |sections| then j <= |sections[k].relocs| else j == 0)
  }

  // The local word relocations of the sections before k and of the first j of section k.
  function Items(sections: seq<Section>, k: nat, j: nat): (r: seq<Item>)
    requires Position(sections, k, j)
    ensures forall i :: 0 <= i < |r| ==> r[i].section < |sections|
    decreases k, j
  {
    if j > 0 then
      var r := sections[k].relocs[j - 1];
      Items(sections, k, j - 1) + if IsLocal(r) then [Item(k, r)] else []
    else if k > 0 then Items(sections, k - 1, |sections[k - 1].relocs|)
    else []
  }

  function AllItems(sections: seq<Section>): (r: seq<Item>)
    ensures forall i :: 0 <= i < |r| ==> r[i].section < |sections|
  {
    Items(sections, |sections|, 0)
  }

  // A target that is no section of the mod makes its load fail.
  predicate TargetsOk(sections: seq<Section>, items: seq<Item>) {
    forall i :: 0 <= i < |items| ==> items[i].section < |sections| && items[i].reloc.target < |sections|
  }

  predicate Loads(sections: seq<Section>) { TargetsOk(sections, AllItems(sections)) }

  // --- Sections of one mod are apart -----------------------------------------------------------

  lemma {:induction false} AddressesGrow(sections: seq<Section>, load: nat, j: nat, k: nat)
    requires j <= k <= |sections|
    ensures load <= AddressBefore(sections, load, j) <= AddressBefore(sections, load, k)
    decreases k
  {
    if k > 0 { AddressesGrow(sections, load, if j < k then j else k - 1, k - 1); }
  }

  // A placed section ends, gap included, before any later one begins, and inside its mod's span.
  lemma SectionsApart(sections: seq<Section>, load: nat, j: nat, k: nat)
    requires j < k <= |sections| && !sections[j].fixed
    ensures load <= LoadAddress(sections, load, j)
    ensures LoadAddress(sections, load, j) + sections[j].size + sections[j].bss + GAP <= AddressBefore(sections, load, k)
    ensures AddressBefore(sections, load, k) <= load + Used(sections, load)
  {
    AddressesGrow(sections, load, 0, j);
    AddressesGrow(sections, load, j + 1, k);
    AddressesGrow(sections, load, k, |sections|);
  }

  // An end rounded up to the next multiple of 16, and a gap of 0x400 after it.
  predicate RoundedUp(end: int, next: int) {
    (next - 0x400) % 16 == 0 && end <= next - 0x400 < end + 16
  }

  // The first placed section is where the mod is loaded; a mod that places none takes no room.
  lemma {:induction false} FirstPlace(sections: seq<Section>, load: nat, k: nat)
    requires k <= |sections| && forall i :: 0 <= i < k ==> sections[i].fixed
    ensures AddressBefore(sections, load, k) == load
    ensures if k == |sections| then Used(sections, load) == 0
            else LoadAddress(sections, load, k) == if sections[k].fixed then sections[k].ram else load
    decreases k
  {
    if k > 0 { FirstPlace(sections, load, k - 1); }
  }

  // Each next one, and the end of the mod, comes after the rounded-up end of the one before.
  lemma {:induction false} NextPlace(sections: seq<Section>, load: nat, j: nat, k: nat)
    requires j < k <= |sections| && !sections[j].fixed && forall i :: j < i < k ==> sections[i].fixed
    ensures var end := LoadAddress(sections, load, j) + sections[j].size + sections[j].bss;
            && RoundedUp(end, AddressBefore(sections, load, k))
            && (if k == |sections| then RoundedUp(end, load + Used(sections, load))
                else if sections[k].fixed then LoadAddress(sections, load, k) == sections[k].ram
                else RoundedUp(end, LoadAddress(sections, load, k)))
    decreases k
  {
    AddressesGrow(sections, load, 0, |sections|);
    if j < k - 1 { NextPlace(sections, load, j, k - 1); }
  }

  // --- Mods one after the other -------------------------------------------------------------------

  // A mod that fails to load does not move the placement address.
  function ModBase(mods: seq<Mod>, load: nat, m: nat): nat
    requires m <= |mods|
  {
    if m == 0 then load
    else
      var before := ModBase(mods, load, m - 1);
      if Loads(mods[m - 1].sections) then before + Used(mods[m - 1].sections, before) else before
  }

  lemma {:induction false} BasesGrow(mods: seq<Mod>, load: nat, m: nat, n: nat)
    requires m <= n <= |mods|
    ensures load <= ModBase(mods, load, m) <= ModBase(mods, load, n)
    decreases n
  {
    if n > 0 { BasesGrow(mods, load, if m < n then m else n - 1, n - 1); }
  }

  // Section j of a mod that loads and section k of the same or a later one, both placed.
  lemma ModSectionsApart(mods: seq<Mod>, load: nat, m: nat, j: nat, n: nat, k: nat)
    requires m <= n < |mods| && j < |mods[m].sections| && k < |mods[n].sections|
    requires (m < n && Loads(mods[m].sections)) || (m == n && j < k)
    requires !mods[m].sections[j].fixed && !mods[n].sections[k].fixed
    ensures LoadAddress(mods[m].sections, ModBase(mods, load, m), j)
            + mods[m].sections[j].size + mods[m].sections[j].bss + GAP
            <= LoadAddress(mods[n].sections, ModBase(mods, load, n), k)
  {
    var a, b := mods[m].sections, mods[n].sections;
    if m == n {
      SectionsApart(a, ModBase(mods, load, m), j, k);
    } else {
      SectionsApart(a, ModBase(mods, load, m), j, |a|);
      BasesGrow(mods, load, m + 1, n);
      AddressesGrow(b, ModBase(mods, load, n), 0, k);
    }
  }
}
