// Silencing voices before their memory is freed (audio_uaf_protect.cpp): bounded walks over
// intrusive circular lists in raw guest memory, storing into the nodes as they go.
module AudioSilence {
  import opened Options
  import opened Words
  import opened Rdram

  datatype Layout = Layout(
    synthVar: u32, allocList: u32, lameList: u32, stopField: u32, tableField: u32, stopped: u32, maxVoices: nat)

  // Which voices to stop: those whose table lies in a range, or all.
  datatype Choice = InRange(start: u32, end: u32) | All

  const SKIP_LIST: u32 := 0xFFFF_FFFF

  predicate InRdram(v: u32) { 0x8000_0000 <= v < 0x8080_0000 }

  // v & 0x1FFFFFFF
  function Physical(v: u32): u32 { v % 0x2000_0000 }

  function Link(v: u32): nat { Physical(v) }
  function StopWord(l: Layout, v: u32): nat { Wrap32(Physical(v) + l.stopField) }
  function TableWord(l: Layout, v: u32): nat { Wrap32(Physical(v) + l.tableField) }

  predicate Chosen(m: seq<byte>, l: Layout, c: Choice, v: u32) {
    match c
    case InRange(start, end) => start <= LoadBe32(m, TableWord(l, v)) < end
    case All => true
  }

  function Visit(m: seq<byte>, l: Layout, c: Choice, v: u32): seq<byte> {
    if Chosen(m, l, c, v) then StoreBe32(m, StopWord(l, v), l.stopped) else m
  }

  predicate Continues(head: u32, node: u32, left: nat) { node != head && InRdram(node) && left > 0 }

  // The memory and the number of voices stopped, walking from `node` at most `left` nodes.
  function Walk(m: seq<byte>, l: Layout, c: Choice, head: u32, node: u32, left: nat): (seq<byte>, nat)
    decreases left
  {
    if !Continues(head, node, left) then (m, 0)
    else
      var m' := Visit(m, l, c, node);
      var (n, k) := Walk(m', l, c, head, LoadBe32(m', Link(node)), left - 1);
      (n, k + if Chosen(m, l, c, node) then 1 else 0)
  }

  function ListHead(synth: u32, offset: u32): Option<u32> {
    var head := Wrap32(synth + offset);
    if offset == SKIP_LIST || !InRdram(head) then None else Some(head)
  }

  function WalkList(m: seq<byte>, l: Layout, c: Choice, synth: u32, offset: u32): (seq<byte>, nat) {
    match ListHead(synth, offset)
    case None => (m, 0)
    case Some(head) => Walk(m, l, c, head, LoadBe32(m, Link(head)), l.maxVoices)
  }

  function Synth(m: seq<byte>, layout: Option<Layout>): Option<u32> {
    if layout.None? || !InRdram(layout.value.synthVar) then None
    else
      var v := LoadBe32(m, Physical(layout.value.synthVar));
      if InRdram(v) then Some(v) else None
  }

  // Both lists, the second in the memory the first walk left.
  function Silence(m: seq<byte>, l: Layout, c: Choice, synth: u32): (seq<byte>, nat) {
    var (m1, j) := WalkList(m, l, c, synth, l.allocList);
    var (m2, k) := WalkList(m1, l, c, synth, l.lameList);
    (m2, j + k)
  }

  // --- The loops, in place -----------------------------------------------------------------------

  method StoreWord(mem: array<byte>, a: nat, w: u32)
    modifies mem
    ensures mem[..] == StoreBe32(old(mem[..]), a, w)
  {
    StorePut(mem, Swizzle(a), w / 0x100_0000);
    StorePut(mem, Swizzle(a + 1), w / 0x1_0000 % 0x100);
    StorePut(mem, Swizzle(a + 2), w / 0x100 % 0x100);
    StorePut(mem, Swizzle(a + 3), w % 0x100);
  }

  method StorePut(mem: array<byte>, i: nat, b: byte)
    modifies mem
    ensures mem[..] == Put(old(mem[..]), i, b)
  {
    if i < mem.Length {
      ghost var m := mem[..];
      mem[i] := b;
      assert mem[..] == m[i := b];
    }
  }

  method WalkInPlace(mem: array<byte>, l: Layout, c: Choice, synth: u32, offset: u32) returns (silenced: nat)
    modifies mem
    ensures (mem[..], silenced) == WalkList(old(mem[..]), l, c, synth, offset)
  {
    hide LoadBe32, StoreBe32, Chosen;
    silenced := 0;
    if offset == SKIP_LIST { return; }
    var head := Wrap32(synth + offset);
    if !InRdram(head) { return; }
    var node := LoadBe32(mem[..], Link(head));
    var iters := 0;
    ghost var whole := Walk(mem[..], l, c, head, node, l.maxVoices);
    while node != head && InRdram(node) && iters < l.maxVoices
      invariant iters <= l.maxVoices
      invariant var (n, k) := Walk(mem[..], l, c, head, node, l.maxVoices - iters);
                whole == (n, k + silenced)
      decreases l.maxVoices - iters
    {
      if Chosen(mem[..], l, c, node) {
        StoreWord(mem, StopWord(l, node), l.stopped);
        silenced := silenced + 1;
      }
      node := LoadBe32(mem[..], Link(node));
      iters := iters + 1;
    }
  }

  // -1 when no synth can be found; an empty range does nothing.
  method SilenceVoicesInRange(mem: array<byte>, layout: Option<Layout>, start: u32, end: u32) returns (result: int)
    modifies mem
    ensures start >= end ==> result == 0 && mem[..] == old(mem[..])
    ensures start < end && Synth(old(mem[..]), layout).None? ==> result == -1 && mem[..] == old(mem[..])
    ensures start < end && Synth(old(mem[..]), layout).Some? ==>
              (mem[..], result) == Silence(old(mem[..]), layout.value, InRange(start, end), Synth(old(mem[..]), layout).value)
  {
    if start >= end { return 0; }
    var synth := Synth(mem[..], layout);
    if synth.None? { return -1; }
    result := SilenceBoth(mem, layout.value, InRange(start, end), synth.value);
  }

  method SilenceAllVoices(mem: array<byte>, layout: Option<Layout>) returns (result: int)
    modifies mem
    ensures Synth(old(mem[..]), layout).None? ==> result == -1 && mem[..] == old(mem[..])
    ensures Synth(old(mem[..]), layout).Some? ==>
              (mem[..], result) == Silence(old(mem[..]), layout.value, All, Synth(old(mem[..]), layout).value)
  {
    var synth := Synth(mem[..], layout);
    if synth.None? { return -1; }
    result := SilenceBoth(mem, layout.value, All, synth.value);
  }

  method SilenceBoth(mem: array<byte>, l: Layout, c: Choice, synth: u32) returns (silenced: nat)
    modifies mem
    ensures (mem[..], silenced) == Silence(old(mem[..]), l, c, synth)
  {
    hide WalkList;
    var first := WalkInPlace(mem, l, c, synth, l.allocList);
    var second := WalkInPlace(mem, l, c, synth, l.lameList);
    silenced := first + second;
  }
}
