// Copying code mods into guest memory and relocating their words (mods.cpp).
module ModLoad {
  import opened Words
  import opened Rdram
  import opened ModLayout

  const KSEG0 := 0x8000_0000

  // One word to move: its host offset and its target's displacement.
  datatype Fixup = Fixup(at: u32, delta: int)

  function At(sections: seq<Section>, addrs: seq<u32>, item: Item): u32
    requires |addrs| == |sections| && item.section < |sections|
  {
    Wrap32(item.reloc.address - sections[item.section].ram + addrs[item.section] - KSEG0)
  }

  function FixupOf(sections: seq<Section>, addrs: seq<u32>, item: Item): Fixup
    requires |addrs| == |sections| && item.section < |sections| && item.reloc.target < |sections|
  {
    Fixup(At(sections, addrs, item), addrs[item.reloc.target] - sections[item.reloc.target].ram)
  }

  function Fixups(sections: seq<Section>, addrs: seq<u32>, items: seq<Item>): seq<Fixup>
    requires |addrs| == |sections| && TargetsOk(sections, items)
  {
    seq(|items|, i requires 0 <= i < |items| => FixupOf(sections, addrs, items[i]))
  }

  function Moved(word: u32, delta: int): u32 { Wrap32(word + delta) }

  function Fix(m: seq<byte>, f: Fixup): seq<byte> { StoreNative(m, f.at, Moved(LoadNative(m, f.at), f.delta)) }

  function Apply(m: seq<byte>, fs: seq<Fixup>): seq<byte> {
    if fs == [] then m else Fix(Apply(m, fs[..|fs| - 1]), fs[|fs| - 1])
  }

  // Every word lies in memory, on a word boundary, and no word is listed twice.
  ghost predicate WordsOk(fs: seq<Fixup>, size: nat) {
    && (forall i :: 0 <= i < |fs| ==> fs[i].at % 4 == 0 && fs[i].at + 4 <= size)
    && (forall i, j :: 0 <= i < j < |fs| ==> fs[i].at != fs[j].at)
  }

  ghost predicate InFixups(fs: seq<Fixup>, x: nat) { exists i :: 0 <= i < |fs| && InWord(fs[i].at, x) }

  // Each listed word moved once, by its target's displacement, and no other byte changed.
  ghost predicate WordsMoved(fs: seq<Fixup>, m: seq<byte>, m': seq<byte>) {
    && |m'| == |m|
    && (forall i :: 0 <= i < |fs| ==> LoadBe32(m', fs[i].at) == Moved(LoadBe32(m, fs[i].at), fs[i].delta))
    && (forall x: nat :: !InFixups(fs, x) ==> Guest(m', x) == Guest(m, x))
  }

  lemma {:induction false} ApplyIs(m: seq<byte>, fs: seq<Fixup>)
    requires |m| % 4 == 0 && WordsOk(fs, |m|)
    ensures WordsMoved(fs, m, Apply(m, fs))
    decreases |fs|
  {
    hide InFixups, Fix, LoadBe32, Guest;
    if fs != [] {
      ApplyIs(m, fs[..|fs| - 1]);
      ApplyLast(m, Apply(m, fs[..|fs| - 1]), fs[..|fs| - 1], fs[|fs| - 1]);
      assert fs == fs[..|fs| - 1] + [fs[|fs| - 1]];
    }
  }

  lemma ApplyLast(m: seq<byte>, m1: seq<byte>, front: seq<Fixup>, f: Fixup)
    requires |m| % 4 == 0 && WordsOk(front + [f], |m|) && WordsMoved(front, m, m1)
    ensures WordsMoved(front + [f], m, Fix(m1, f))
  {
    hide InFixups, LoadBe32, Guest, Moved, LoadNative, StoreNative;
    var fs, m' := front + [f], Fix(m1, f);
    assert fs[|front|] == f && forall i :: 0 <= i < |front| ==> fs[i] == front[i];
    NativeIsBigEndian(m1, f.at, 0);
    StoreWordFrame(m1, f.at, Moved(LoadNative(m1, f.at), f.delta));
    UntouchedWord(m, m1, front, f);
    forall i | 0 <= i < |front| ensures front[i].at % 4 == 0 && front[i].at != f.at {
      assert fs[i].at != fs[|front|].at;
    }
    forall x: nat | !InFixups(fs, x) ensures Guest(m', x) == Guest(m, x) { NotInFront(front, f, x); }
  }

  // The last word is not among the others.
  lemma UntouchedWord(m: seq<byte>, m1: seq<byte>, front: seq<Fixup>, f: Fixup)
    requires WordsOk(front + [f], |m|) && WordsMoved(front, m, m1)
    ensures LoadBe32(m1, f.at) == LoadBe32(m, f.at)
  {
    hide Guest, InFixups, LoadBe32, WordsOk;
    forall x: nat | f.at <= x < f.at + 4 ensures Guest(m1, x) == Guest(m, x) { Elsewhere(front, f, |m|, x); }
    SameWord(m, m1, f.at);
  }

  lemma Elsewhere(front: seq<Fixup>, f: Fixup, size: nat, x: nat)
    requires WordsOk(front + [f], size) && InWord(f.at, x)
    ensures !InFixups(front, x)
  {
    var fs := front + [f];
    assert fs[|front|] == f;
    forall i | 0 <= i < |front| ensures !InWord(front[i].at, x) {
      assert fs[i] == front[i];
      OtherFixup(fs[i], f, x);
    }
  }

  lemma OtherFixup(f: Fixup, g: Fixup, x: nat)
    requires f.at % 4 == 0 && g.at % 4 == 0 && f.at != g.at && InWord(g.at, x)
    ensures !InWord(f.at, x)
  {}

  lemma NotInFront(front: seq<Fixup>, f: Fixup, x: nat)
    requires !InFixups(front + [f], x)
    ensures !InFixups(front, x) && !InWord(f.at, x)
  {
    var fs := front + [f];
    assert fs[|front|] == f && forall i :: 0 <= i < |front| ==> fs[i] == front[i];
  }

  // A relocated word is as far from its target's load address as it was from the target's
  // original address, modulo 2^32.
  lemma OffsetKept(word: u32, original: u32, loaded: u32)
    ensures Wrap32(Moved(word, loaded - original) - loaded) == Wrap32(word - original)
  {
    var v := word + (loaded - original);
    assert v == v / TWO32 * TWO32 + Wrap32(v);
    Shift(word - original, v / TWO32);
  }

  lemma Shift(x: int, n: int)
    ensures Wrap32(x - n * TWO32) == Wrap32(x)
  {
    assert x == x / TWO32 * TWO32 + x % TWO32;
    assert x - n * TWO32 == (x / TWO32 - n) * TWO32 + x % TWO32;
    Unique(x - n * TWO32, x / TWO32 - n, x % TWO32);
  }

  lemma Unique(y: int, q: int, r: int)
    requires y == q * TWO32 + r && 0 <= r < TWO32
    ensures Wrap32(y) == r
  {}
}
