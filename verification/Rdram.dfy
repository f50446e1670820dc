// Guest memory: librecomp keeps big-endian guest memory in host-native words, so guest
// byte a lives at host byte a ^ 3.
module Rdram {
  import opened Words

  // Host bytes; reads outside the block give zero and writes outside it are lost.
  function Get(m: seq<byte>, i: nat): byte { if i < |m| then m[i] else 0 }
  function Put(m: seq<byte>, i: nat, b: byte): seq<byte> { if i < |m| then m[i := b] else m }

  // The bytes of a stretch replaced.
  function Splice(m: seq<byte>, at: nat, bytes: seq<byte>): (r: seq<byte>)
    requires at + |bytes| <= |m|
    ensures |r| == |m|
  {
    m[..at] + bytes + m[at + |bytes|..]
  }

  // Words of four bytes by address.
  predicate InWord(a: nat, x: nat) { a <= x < a + 4 }
  predicate WordsApart(a: nat, b: nat) { a + 4 <= b || b + 4 <= a }

  // a ^ 3
  function Swizzle(a: nat): nat { a - a % 4 + (3 - a % 4) }

  lemma SwizzleInvolution(a: nat)
    ensures Swizzle(Swizzle(a)) == a
    ensures forall size: nat :: size % 4 == 0 ==> (Swizzle(a) < size <==> a < size)
  {}

  function Guest(m: seq<byte>, a: nat): byte { Get(m, Swizzle(a)) }

  function LoadBe32(m: seq<byte>, a: nat): u32 {
    Guest(m, a) * 0x100_0000 + Guest(m, a + 1) * 0x1_0000 + Guest(m, a + 2) * 0x100 + Guest(m, a + 3)
  }

  function StoreBe32(m: seq<byte>, a: nat, w: u32): seq<byte> {
    Put(Put(Put(Put(m, Swizzle(a), w / 0x100_0000), Swizzle(a + 1), w / 0x1_0000 % 0x100),
            Swizzle(a + 2), w / 0x100 % 0x100), Swizzle(a + 3), w % 0x100)
  }

  // A host-native (little-endian) word access.
  function LoadNative(m: seq<byte>, a: nat): u32 {
    Get(m, a) + Get(m, a + 1) * 0x100 + Get(m, a + 2) * 0x1_0000 + Get(m, a + 3) * 0x100_0000
  }

  function StoreNative(m: seq<byte>, a: nat, w: u32): seq<byte> {
    Put(Put(Put(Put(m, a, w % 0x100), a + 1, w / 0x100 % 0x100),
            a + 2, w / 0x1_0000 % 0x100), a + 3, w / 0x100_0000)
  }

  // On aligned words the two views agree: one native access is four swizzled bytes.
  lemma NativeIsBigEndian(m: seq<byte>, a: nat, w: u32)
    requires a % 4 == 0
    ensures LoadNative(m, a) == LoadBe32(m, a)
    ensures StoreNative(m, a, w) == StoreBe32(m, a, w)
  {
    assert Swizzle(a) == a + 3 && Swizzle(a + 1) == a + 2 && Swizzle(a + 2) == a + 1 && Swizzle(a + 3) == a;
  }

  lemma PutGuest(m: seq<byte>, a: nat, b: byte, x: nat)
    requires a < |m| && |m| % 4 == 0
    ensures Guest(Put(m, Swizzle(a), b), x) == if x == a then b else Guest(m, x)
  {
    SwizzleInvolution(a);
    SwizzleInvolution(x);
  }

  // A store changes the four guest bytes it names, big-endian, and no other.
  lemma StoreFrame(m: seq<byte>, a: nat, w: u32)
    requires a + 4 <= |m| && |m| % 4 == 0
    ensures |StoreBe32(m, a, w)| == |m| && LoadBe32(StoreBe32(m, a, w), a) == w
    ensures forall x: nat :: x < a || a + 4 <= x ==> Guest(StoreBe32(m, a, w), x) == Guest(m, x)
  {
    var n := StoreBe32(m, a, w);
    forall x: nat | x < a || a + 4 <= x
      ensures Guest(n, x) == Guest(m, x)
    {
      StoredByte(m, a, w, x);
    }
    StoredByte(m, a, w, a);
    StoredByte(m, a, w, a + 1);
    StoredByte(m, a, w, a + 2);
    StoredByte(m, a, w, a + 3);
    WordBytes(w);
  }

  lemma WordBytes(w: u32)
    ensures w == w / 0x100_0000 * 0x100_0000 + w / 0x1_0000 % 0x100 * 0x1_0000 + w / 0x100 % 0x100 * 0x100 + w % 0x100
  {
    var h := w / 0x100;
    assert w / 0x1_0000 == h / 0x100 && w / 0x100_0000 == h / 0x100 / 0x100;
  }

  lemma StoredByte(m: seq<byte>, a: nat, w: u32, x: nat)
    requires a + 4 <= |m| && |m| % 4 == 0
    ensures |StoreBe32(m, a, w)| == |m|
    ensures Guest(StoreBe32(m, a, w), x) ==
            if x == a then w / 0x100_0000 else if x == a + 1 then w / 0x1_0000 % 0x100
            else if x == a + 2 then w / 0x100 % 0x100 else if x == a + 3 then w % 0x100
            else Guest(m, x)
  {
    var m1 := Put(m, Swizzle(a), w / 0x100_0000);
    var m2 := Put(m1, Swizzle(a + 1), w / 0x1_0000 % 0x100);
    var m3 := Put(m2, Swizzle(a + 2), w / 0x100 % 0x100);
    PutGuest(m, a, w / 0x100_0000, x);
    PutGuest(m1, a + 1, w / 0x1_0000 % 0x100, x);
    PutGuest(m2, a + 2, w / 0x100 % 0x100, x);
    PutGuest(m3, a + 3, w % 0x100, x);
  }

  lemma SameWord(m: seq<byte>, n: seq<byte>, a: nat)
    requires forall x: nat :: a <= x < a + 4 ==> Guest(n, x) == Guest(m, x)
    ensures LoadBe32(n, a) == LoadBe32(m, a)
  {}

  lemma Boundaries(a: nat, b: nat)
    requires a % 4 == 0 && b % 4 == 0 && a != b
    ensures a + 4 <= b || b + 4 <= a
  {}

  // A native store to a word boundary changes that word and no other byte.
  lemma StoreWordFrame(m: seq<byte>, a: nat, w: u32)
    requires a % 4 == 0 && a + 4 <= |m| && |m| % 4 == 0
    ensures |StoreNative(m, a, w)| == |m| && LoadBe32(StoreNative(m, a, w), a) == w
    ensures forall x: nat :: x < a || a + 4 <= x ==> Guest(StoreNative(m, a, w), x) == Guest(m, x)
    ensures forall b: nat :: b % 4 == 0 && b != a ==> LoadBe32(StoreNative(m, a, w), b) == LoadBe32(m, b)
  {
    NativeIsBigEndian(m, a, w);
    StoreFrame(m, a, w);
    hide *;
    forall b: nat | b % 4 == 0 && b != a ensures LoadBe32(StoreNative(m, a, w), b) == LoadBe32(m, b) {
      Boundaries(a, b);
      SameWord(m, StoreNative(m, a, w), b);
    }
  }

  // One guest byte written in place.
  method StoreGuest(mem: array<byte>, a: nat, b: byte)
    requires mem.Length % 4 == 0 && a < mem.Length
    modifies mem
    ensures forall x: nat :: Guest(mem[..], x) == if x == a then b else Guest(old(mem[..]), x)
  {
    SwizzleInvolution(a);
    ghost var m := mem[..];
    mem[Swizzle(a)] := b;
    assert mem[..] == Put(m, Swizzle(a), b);
    forall x: nat { PutGuest(m, a, b, x); }
  }
}
