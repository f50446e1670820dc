// What a silencing walk does: it stops exactly the chosen voices it visits and changes no
// other byte, and on circular lists no longer than the cap it visits every voice.
module AudioVoices {
  import opened Words
  import opened Rdram
  import opened AudioSilence

  // --- The nodes a walk visits, read without storing ---------------------------------------------

  function Nodes(m: seq<byte>, head: u32, node: u32, left: nat): seq<u32>
    decreases left
  {
    if !Continues(head, node, left) then []
    else [node] + Nodes(m, head, LoadBe32(m, Link(node)), left - 1)
  }

  function ListNodes(m: seq<byte>, l: Layout, synth: u32, offset: u32): seq<u32> {
    match ListHead(synth, offset)
    case None => []
    case Some(head) => Nodes(m, head, LoadBe32(m, Link(head)), l.maxVoices)
  }

  // A circular list: the head links to the first node, each node to the next, the last back.
  ghost predicate Circular(m: seq<byte>, head: u32, nodes: seq<u32>) {
    && (forall i :: 0 <= i < |nodes| ==> nodes[i] != head && InRdram(nodes[i]))
    && LoadBe32(m, Link(head)) == (if nodes == [] then head else nodes[0])
    && (forall i :: 0 <= i < |nodes| ==>
          LoadBe32(m, Link(nodes[i])) == if i + 1 < |nodes| then nodes[i + 1] else head)
  }

  // No longer than the cap, a circular list is walked from end to end.
  lemma CircularNodes(m: seq<byte>, head: u32, nodes: seq<u32>, left: nat)
    requires Circular(m, head, nodes) && |nodes| <= left
    ensures Nodes(m, head, LoadBe32(m, Link(head)), left) == nodes
  {
    if nodes != [] { FromNode(m, head, nodes, 0, left); }
  }

  lemma {:induction false} FromNode(m: seq<byte>, head: u32, nodes: seq<u32>, i: nat, left: nat)
    requires Circular(m, head, nodes) && i < |nodes| && |nodes| - i <= left
    ensures Nodes(m, head, nodes[i], left) == nodes[i..]
    decreases |nodes| - i
  {
    hide LoadBe32;
    assert nodes[i..] == [nodes[i]] + nodes[i + 1..];
    if i + 1 < |nodes| { FromNode(m, head, nodes, i + 1, left - 1); }
  }

  // --- Disjoint fields ------------------------------------------------------------------------------

  // The stop words of the voices lie in memory, apart from each other, from every link and
  // from every table pointer.
  ghost predicate Disjoint(l: Layout, links: seq<u32>, voices: seq<u32>, size: nat) {
    && size % 4 == 0
    && (forall i :: 0 <= i < |voices| ==> StopWord(l, voices[i]) + 4 <= size)
    && (forall i, j :: 0 <= i < |voices| && 0 <= j < |links| ==> WordsApart(StopWord(l, voices[i]), Link(links[j])))
    && (forall i, j :: 0 <= i < |voices| && 0 <= j < |voices| ==>
          && WordsApart(StopWord(l, voices[i]), Link(voices[j]))
          && WordsApart(StopWord(l, voices[i]), TableWord(l, voices[j]))
          && (StopWord(l, voices[i]) == StopWord(l, voices[j]) || WordsApart(StopWord(l, voices[i]), StopWord(l, voices[j]))))
  }

  // The stop words of the chosen voices, in order.
  function Stops(m: seq<byte>, l: Layout, c: Choice, voices: seq<u32>): seq<nat> {
    if voices == [] then []
    else if Chosen(m, l, c, voices[0]) then [StopWord(l, voices[0])] + Stops(m, l, c, voices[1..])
    else Stops(m, l, c, voices[1..])
  }

  function StoreEach(m: seq<byte>, at: seq<nat>, w: u32): seq<byte>
    decreases |at|
  {
    if at == [] then m else StoreEach(StoreBe32(m, at[0], w), at[1..], w)
  }

  lemma StoreFirst(m: seq<byte>, a: nat, rest: seq<nat>, w: u32)
    ensures StoreEach(m, [a] + rest, w) == StoreEach(StoreBe32(m, a, w), rest, w)
  {
    hide StoreBe32;
    assert ([a] + rest)[1..] == rest;
  }

  lemma StoreApart(m: seq<byte>, a: nat, w: u32, b: nat)
    requires |m| % 4 == 0 && a + 4 <= |m| && WordsApart(a, b)
    ensures LoadBe32(StoreBe32(m, a, w), b) == LoadBe32(m, b) && |StoreBe32(m, a, w)| == |m|
  {
    StoreFrame(m, a, w);
    hide Guest, StoreBe32, LoadBe32;
    SameWord(m, StoreBe32(m, a, w), b);
  }

  // Two memories that agree on the links and table pointers of the voices.
  ghost predicate SameFields(m: seq<byte>, n: seq<byte>, l: Layout, voices: seq<u32>) {
    forall i :: 0 <= i < |voices| ==>
      && LoadBe32(n, Link(voices[i])) == LoadBe32(m, Link(voices[i]))
      && LoadBe32(n, TableWord(l, voices[i])) == LoadBe32(m, TableWord(l, voices[i]))
  }

  lemma {:induction false} SameNodes(m: seq<byte>, n: seq<byte>, l: Layout, head: u32, node: u32, left: nat)
    requires SameFields(m, n, l, Nodes(m, head, node, left))
    ensures Nodes(n, head, node, left) == Nodes(m, head, node, left)
    decreases left
  {
    hide LoadBe32;
    if Continues(head, node, left) {
      var rest := Nodes(m, head, LoadBe32(m, Link(node)), left - 1);
      var all := Nodes(m, head, node, left);
      assert all[0] == node && forall i :: 0 <= i < |rest| ==> all[i + 1] == rest[i];
      SameNodes(m, n, l, head, LoadBe32(m, Link(node)), left - 1);
    }
  }

  lemma {:induction false} SameStops(m: seq<byte>, n: seq<byte>, l: Layout, c: Choice, voices: seq<u32>)
    requires SameFields(m, n, l, voices)
    ensures Stops(n, l, c, voices) == Stops(m, l, c, voices)
    decreases |voices|
  {
    hide LoadBe32;
    if voices != [] {
      assert forall i :: 0 <= i < |voices[1..]| ==> voices[1..][i] == voices[i + 1];
      SameStops(m, n, l, c, voices[1..]);
    }
  }

  // A visit changes no link and no table pointer of the voices.
  lemma VisitKeeps(m: seq<byte>, l: Layout, c: Choice, voices: seq<u32>, k: nat)
    requires Disjoint(l, [], voices, |m|) && k < |voices|
    ensures SameFields(m, Visit(m, l, c, voices[k]), l, voices) && |Visit(m, l, c, voices[k])| == |m|
  {
    hide LoadBe32, StoreBe32, StopWord, TableWord, Link;
    forall i | 0 <= i < |voices|
      ensures LoadBe32(Visit(m, l, c, voices[k]), Link(voices[i])) == LoadBe32(m, Link(voices[i]))
      ensures LoadBe32(Visit(m, l, c, voices[k]), TableWord(l, voices[i])) == LoadBe32(m, TableWord(l, voices[i]))
      ensures |Visit(m, l, c, voices[k])| == |m|
    {
      StoreApart(m, StopWord(l, voices[k]), l.stopped, Link(voices[i]));
      StoreApart(m, StopWord(l, voices[k]), l.stopped, TableWord(l, voices[i]));
    }
  }

  // A walk stores into the chosen ones of the nodes it visits, as they were before it began.
  lemma {:induction false} WalkIs(m: seq<byte>, l: Layout, c: Choice, head: u32, node: u32, left: nat)
    requires Disjoint(l, [], Nodes(m, head, node, left), |m|)
    ensures var stops := Stops(m, l, c, Nodes(m, head, node, left));
            Walk(m, l, c, head, node, left) == (StoreEach(m, stops, l.stopped), |stops|)
    decreases left
  {
    hide LoadBe32, StoreBe32, Chosen, StopWord, TableWord, Link;
    if Continues(head, node, left) {
      var voices, next := Nodes(m, head, node, left), LoadBe32(m, Link(node));
      var m', rest := Visit(m, l, c, node), Nodes(m, head, next, left - 1);
      assert voices[0] == node && voices[1..] == rest;
      VisitKeeps(m, l, c, voices, 0);
      RestFields(m, m', l, voices);
      SameNodes(m, m', l, head, next, left - 1);
      SameStops(m, m', l, c, rest);
      WalkIs(m', l, c, head, next, left - 1);
      if Chosen(m, l, c, node) { StoreFirst(m, StopWord(l, node), Stops(m, l, c, rest), l.stopped); }
    }
  }

  lemma RestFields(m: seq<byte>, n: seq<byte>, l: Layout, voices: seq<u32>)
    requires voices != [] && SameFields(m, n, l, voices) && Disjoint(l, [], voices, |m|) && |n| == |m|
    ensures SameFields(m, n, l, voices[1..]) && Disjoint(l, [], voices[1..], |n|)
    ensures LoadBe32(n, Link(voices[0])) == LoadBe32(m, Link(voices[0]))
  {
    hide LoadBe32, StopWord, TableWord, Link;
    assert forall i :: 0 <= i < |voices[1..]| ==> voices[1..][i] == voices[i + 1];
  }

  // --- Both lists --------------------------------------------------------------------------------------

  function Heads(l: Layout, synth: u32): seq<u32> { [Wrap32(synth + l.allocList), Wrap32(synth + l.lameList)] }

  function Voices(m: seq<byte>, l: Layout, synth: u32): seq<u32> {
    ListNodes(m, l, synth, l.allocList) + ListNodes(m, l, synth, l.lameList)
  }

  lemma DisjointPart(l: Layout, links: seq<u32>, a: seq<u32>, b: seq<u32>, size: nat)
    requires Disjoint(l, links, a + b, size)
    ensures Disjoint(l, [], a, size) && Disjoint(l, [], b, size)
  {
    hide StopWord, TableWord, Link, WordsApart;
    assert forall i :: 0 <= i < |a| ==> (a + b)[i] == a[i];
    assert forall i :: 0 <= i < |b| ==> (a + b)[|a| + i] == b[i];
  }

  lemma {:induction false} StopsConcat(m: seq<byte>, l: Layout, c: Choice, a: seq<u32>, b: seq<u32>)
    ensures Stops(m, l, c, a + b) == Stops(m, l, c, a) + Stops(m, l, c, b)
    decreases |a|
  {
    hide Chosen;
    if a == [] {
      assert a + b == b;
    } else {
      StopsConcat(m, l, c, a[1..], b);
      assert (a + b)[0] == a[0] && (a + b)[1..] == a[1..] + b;
      var first, front, back := [StopWord(l, a[0])], Stops(m, l, c, a[1..]), Stops(m, l, c, b);
      assert first + (front + back) == (first + front) + back;
    }
  }

  lemma {:induction false} StoreConcat(m: seq<byte>, a: seq<nat>, b: seq<nat>, w: u32)
    ensures StoreEach(m, a + b, w) == StoreEach(StoreEach(m, a, w), b, w)
    decreases |a|
  {
    hide StoreBe32;
    if a == [] {
      assert a + b == b;
    } else {
      StoreConcat(StoreBe32(m, a[0], w), a[1..], b, w);
      assert (a + b)[0] == a[0] && (a + b)[1..] == a[1..] + b;
    }
  }

  // Words listed for storing, all in memory.
  ghost predicate InMemory(at: seq<nat>, size: nat) { size % 4 == 0 && forall i :: 0 <= i < |at| ==> at[i] + 4 <= size }

  // Storing into words leaves a word apart from all of them, and every byte outside them.
  lemma {:induction false} StoreEachFrame(m: seq<byte>, at: seq<nat>, w: u32)
    requires InMemory(at, |m|)
    ensures var n := StoreEach(m, at, w);
            && |n| == |m|
            && (forall x: nat :: (forall i :: 0 <= i < |at| ==> !InWord(at[i], x)) ==> Guest(n, x) == Guest(m, x))
            && (forall b: nat :: (forall i :: 0 <= i < |at| ==> WordsApart(at[i], b)) ==>
              LoadBe32(n, b) == LoadBe32(m, b))
    decreases |at|
  {
    if at != [] {
      var m1 := StoreBe32(m, at[0], w);
      assert forall i :: 0 <= i < |at[1..]| ==> at[1..][i] == at[i + 1];
      StoreFrame(m, at[0], w);
      hide Guest, StoreBe32, LoadBe32;
      StoreEachFrame(m1, at[1..], w);
      forall b: nat | forall i :: 0 <= i < |at| ==> WordsApart(at[i], b)
        ensures LoadBe32(StoreEach(m, at, w), b) == LoadBe32(m, b)
      {
        StoreApart(m, at[0], w, b);
      }
    }
  }

  // Every listed word holds the value, when listed words are the same or apart.
  lemma {:induction false} StoredEach(m: seq<byte>, at: seq<nat>, w: u32, i: nat)
    requires InMemory(at, |m|) && i < |at|
    requires forall j :: 0 <= j < |at| ==> at[j] == at[i] || WordsApart(at[j], at[i])
    ensures LoadBe32(StoreEach(m, at, w), at[i]) == w
    decreases |at|
  {
    var m1, rest := StoreBe32(m, at[0], w), at[1..];
    assert forall j :: 0 <= j < |rest| ==> rest[j] == at[j + 1];
    StoreFrame(m, at[0], w);
    hide Guest, StoreBe32, LoadBe32;
    if i > 0 {
      StoredEach(m1, rest, w, i - 1);
    } else if exists j :: 0 <= j < |rest| && rest[j] == at[0] {
      var j :| 0 <= j < |rest| && rest[j] == at[0];
      StoredEach(m1, rest, w, j);
    } else {
      StoreEachFrame(m1, rest, w);
      assert forall j :: 0 <= j < |rest| ==> WordsApart(rest[j], at[0]);
    }
  }

  // Address a is the stop word of a chosen voice.
  ghost predicate IsStop(m: seq<byte>, l: Layout, c: Choice, voices: seq<u32>, a: nat) {
    exists j :: 0 <= j < |voices| && Chosen(m, l, c, voices[j]) && StopWord(l, voices[j]) == a
  }

  lemma IsStopLater(m: seq<byte>, l: Layout, c: Choice, voices: seq<u32>, a: nat)
    requires voices != [] && IsStop(m, l, c, voices[1..], a)
    ensures IsStop(m, l, c, voices, a)
  {
    hide Chosen, StopWord;
    var rest := voices[1..];
    var j :| 0 <= j < |rest| && Chosen(m, l, c, rest[j]) && StopWord(l, rest[j]) == a;
    assert voices[j + 1] == rest[j];
  }

  lemma {:induction false} StopsAre(m: seq<byte>, l: Layout, c: Choice, voices: seq<u32>)
    ensures var stops := Stops(m, l, c, voices);
            && (forall a :: a in stops ==> IsStop(m, l, c, voices, a))
            && (forall j :: 0 <= j < |voices| && Chosen(m, l, c, voices[j]) ==> StopWord(l, voices[j]) in stops)
    decreases |voices|
  {
    hide Chosen, StopWord, IsStop;
    if voices != [] {
      var rest := Stops(m, l, c, voices[1..]);
      StopsAre(m, l, c, voices[1..]);
      assert forall j :: 0 <= j < |voices[1..]| ==> voices[1..][j] == voices[j + 1];
      forall a | a in rest ensures IsStop(m, l, c, voices, a) { IsStopLater(m, l, c, voices, a); }
      if Chosen(m, l, c, voices[0]) { IsStopFirst(m, l, c, voices); }
    }
  }

  lemma IsStopFirst(m: seq<byte>, l: Layout, c: Choice, voices: seq<u32>)
    requires voices != [] && Chosen(m, l, c, voices[0])
    ensures IsStop(m, l, c, voices, StopWord(l, voices[0]))
  {}

  // Both walks together store into the chosen voices of both lists as they were at first.
  lemma SilenceIs(m: seq<byte>, l: Layout, c: Choice, synth: u32)
    requires Disjoint(l, Heads(l, synth), Voices(m, l, synth), |m|)
    ensures var stops := Stops(m, l, c, Voices(m, l, synth));
            Silence(m, l, c, synth) == (StoreEach(m, stops, l.stopped), |stops|)
  {
    hide LoadBe32, StoreBe32, Chosen, StopWord, TableWord, Link;
    var a, b := ListNodes(m, l, synth, l.allocList), ListNodes(m, l, synth, l.lameList);
    DisjointPart(l, Heads(l, synth), a, b, |m|);
    FirstList(m, l, c, synth);
    var m1 := StoreEach(m, Stops(m, l, c, a), l.stopped);
    SecondKept(m, m1, l, c, synth);
    SecondList(m, m1, l, c, synth);
    StopsConcat(m, l, c, a, b);
    StoreConcat(m, Stops(m, l, c, a), Stops(m, l, c, b), l.stopped);
  }

  lemma FirstList(m: seq<byte>, l: Layout, c: Choice, synth: u32)
    requires Disjoint(l, [], ListNodes(m, l, synth, l.allocList), |m|)
    ensures var stops := Stops(m, l, c, ListNodes(m, l, synth, l.allocList));
            WalkList(m, l, c, synth, l.allocList) == (StoreEach(m, stops, l.stopped), |stops|)
  {
    hide LoadBe32, StoreBe32, Chosen, Disjoint, Walk, Nodes;
    var head := ListHead(synth, l.allocList);
    if head.Some? { WalkIs(m, l, c, head.value, LoadBe32(m, Link(head.value)), l.maxVoices); }
  }

  // The first walk leaves the second list and its voices' fields as they were.
  lemma SecondKept(m: seq<byte>, m1: seq<byte>, l: Layout, c: Choice, synth: u32)
    requires Disjoint(l, Heads(l, synth), Voices(m, l, synth), |m|)
    requires m1 == StoreEach(m, Stops(m, l, c, ListNodes(m, l, synth, l.allocList)), l.stopped)
    ensures |m1| == |m| && SameFields(m, m1, l, ListNodes(m, l, synth, l.lameList))
    ensures LoadBe32(m1, Link(Wrap32(synth + l.lameList))) == LoadBe32(m, Link(Wrap32(synth + l.lameList)))
  {
    hide LoadBe32, StoreBe32, Chosen, StopWord, TableWord, Link, ListNodes, Guest, StoreEach, WordsApart;
    var a, b := ListNodes(m, l, synth, l.allocList), ListNodes(m, l, synth, l.lameList);
    var stops, voices := Stops(m, l, c, a), Voices(m, l, synth);
    assert forall i :: 0 <= i < |a| ==> voices[i] == a[i];
    assert forall i :: 0 <= i < |b| ==> voices[|a| + i] == b[i];
    assert Heads(l, synth)[1] == Wrap32(synth + l.lameList);
    StopsAre(m, l, c, a);
    assert forall i :: 0 <= i < |stops| ==> stops[i] in stops;
    assert InMemory(stops, |m|);
    StoreEachFrame(m, stops, l.stopped);
  }

  lemma SecondList(m: seq<byte>, m1: seq<byte>, l: Layout, c: Choice, synth: u32)
    requires |m1| == |m| && Disjoint(l, [], ListNodes(m, l, synth, l.lameList), |m|)
    requires SameFields(m, m1, l, ListNodes(m, l, synth, l.lameList))
    requires LoadBe32(m1, Link(Wrap32(synth + l.lameList))) == LoadBe32(m, Link(Wrap32(synth + l.lameList)))
    ensures var stops := Stops(m, l, c, ListNodes(m, l, synth, l.lameList));
            WalkList(m1, l, c, synth, l.lameList) == (StoreEach(m1, stops, l.stopped), |stops|)
  {
    hide LoadBe32, StoreBe32, Chosen, Disjoint, Walk, Nodes, Link, SameFields;
    var head := ListHead(synth, l.lameList);
    if head.Some? {
      var first := LoadBe32(m, Link(head.value));
      SameNodes(m, m1, l, head.value, first, l.maxVoices);
      WalkIs(m1, l, c, head.value, first, l.maxVoices);
      SameStops(m, m1, l, c, ListNodes(m, l, synth, l.lameList));
    }
  }

  // --- What silencing does --------------------------------------------------------------------------------

  function CountChosen(m: seq<byte>, l: Layout, c: Choice, voices: seq<u32>): nat {
    if voices == [] then 0 else (if Chosen(m, l, c, voices[0]) then 1 else 0) + CountChosen(m, l, c, voices[1..])
  }

  lemma {:induction false} CountIs(m: seq<byte>, l: Layout, c: Choice, voices: seq<u32>)
    ensures |Stops(m, l, c, voices)| == CountChosen(m, l, c, voices)
    decreases |voices|
  {
    hide Chosen;
    if voices != [] { CountIs(m, l, c, voices[1..]); }
  }

  // On two circular lists no longer than the cap, with disjoint fields: every chosen voice is
  // stopped, the result is their number, and no byte outside their stop words changes.
  lemma SilencesExactly(m: seq<byte>, l: Layout, c: Choice, synth: u32, alloc: seq<u32>,
                        lame: seq<u32>)
    requires ListHead(synth, l.allocList).Some? && ListHead(synth, l.lameList).Some?
    requires Circular(m, ListHead(synth, l.allocList).value, alloc) && |alloc| <= l.maxVoices
    requires Circular(m, ListHead(synth, l.lameList).value, lame) && |lame| <= l.maxVoices
    requires Disjoint(l, Heads(l, synth), alloc + lame, |m|)
    ensures var (n, count) := Silence(m, l, c, synth);
            && |n| == |m| && count == CountChosen(m, l, c, alloc + lame)
            && (forall v :: v in alloc + lame && Chosen(m, l, c, v) ==> LoadBe32(n, StopWord(l, v)) == l.stopped)
            && (forall x: nat :: (forall v :: v in alloc + lame && Chosen(m, l, c, v) ==>
              !InWord(StopWord(l, v), x)) ==>
                  Guest(n, x) == Guest(m, x))
  {
    CircularNodes(m, ListHead(synth, l.allocList).value, alloc, l.maxVoices);
    CircularNodes(m, ListHead(synth, l.lameList).value, lame, l.maxVoices);
    assert Voices(m, l, synth) == alloc + lame;
    hide *;
    SilenceIs(m, l, c, synth);
    Outcome(m, l, c, Heads(l, synth), alloc + lame);
  }

  lemma Outcome(m: seq<byte>, l: Layout, c: Choice, links: seq<u32>, voices: seq<u32>)
    requires Disjoint(l, links, voices, |m|)
    ensures var stops := Stops(m, l, c, voices);
            var n := StoreEach(m, stops, l.stopped);
            && |n| == |m| && |stops| == CountChosen(m, l, c, voices)
            && (forall v :: v in voices && Chosen(m, l, c, v) ==> LoadBe32(n, StopWord(l, v)) == l.stopped)
            && (forall x: nat :: (forall v :: v in voices && Chosen(m, l, c, v) ==> !InWord(StopWord(l, v), x)) ==>
                  Guest(n, x) == Guest(m, x))
  {
    hide LoadBe32, StoreBe32, Chosen, StopWord, TableWord, Link, Guest;
    var stops := Stops(m, l, c, voices);
    CountIs(m, l, c, voices);
    StopsAre(m, l, c, voices);
    assert forall i :: 0 <= i < |stops| ==> stops[i] in stops;
    StoreEachFrame(m, stops, l.stopped);
    forall v | v in voices && Chosen(m, l, c, v)
      ensures LoadBe32(StoreEach(m, stops, l.stopped), StopWord(l, v)) == l.stopped
    {
      var j :| 0 <= j < |voices| && voices[j] == v;
      var i :| 0 <= i < |stops| && stops[i] == StopWord(l, v);
      StoredEach(m, stops, l.stopped, i);
    }
  }

  // --- A range of tables, and every voice -----------------------------------------------------------

  // A list the layout skips, or whose head is outside guest memory, has no voices.
  ghost predicate Listed(m: seq<byte>, synth: u32, offset: u32, cap: nat, voices: seq<u32>) {
    var head := (synth + offset) % 0x1_0000_0000;
    if offset == 0xFFFF_FFFF || !(0x8000_0000 <= head < 0x8080_0000) then voices == []
    else Circular(m, head, voices) && |voices| <= cap
  }

  // The word of a voice's fields at a guest offset: its table pointer, or where it is stopped.
  function FieldAt(v: u32, field: u32): nat { (v % 0x2000_0000 + field) % 0x1_0000_0000 }

  // The voice plays from a table in the range.
  predicate PlaysFrom(m: seq<byte>, l: Layout, v: u32, start: u32, end: u32) {
    start <= LoadBe32(m, FieldAt(v, l.tableField)) < end
  }

  // Exactly these voices are stopped and no other byte changes.
  ghost predicate StopsJust(m: seq<byte>, n: seq<byte>, l: Layout, voices: seq<u32>) {
    && |n| == |m|
    && (forall v :: v in voices ==> LoadBe32(n, FieldAt(v, l.stopField)) == l.stopped)
    && forall x: nat :: (forall v :: v in voices ==> !InWord(FieldAt(v, l.stopField), x)) ==> Guest(n, x) == Guest(m, x)
  }

  function Playing(m: seq<byte>, l: Layout, voices: seq<u32>, start: u32, end: u32): (r: seq<u32>)
    ensures forall v :: v in r <==> v in voices && PlaysFrom(m, l, v, start, end)
  {
    if voices == [] then []
    else (if PlaysFrom(m, l, voices[0], start, end) then [voices[0]] else []) + Playing(m, l, voices[1..], start, end)
  }

  lemma {:induction false} CountPlaying(m: seq<byte>, l: Layout, voices: seq<u32>, start: u32, end: u32)
    ensures CountChosen(m, l, InRange(start, end), voices) == |Playing(m, l, voices, start, end)|
    decreases |voices|
  {
    hide LoadBe32;
    if voices != [] { CountPlaying(m, l, voices[1..], start, end); }
  }

  lemma {:induction false} CountEvery(m: seq<byte>, l: Layout, voices: seq<u32>)
    ensures CountChosen(m, l, All, voices) == |voices|
    decreases |voices|
  {
    if voices != [] { CountEvery(m, l, voices[1..]); }
  }

  lemma ListedNodes(m: seq<byte>, l: Layout, synth: u32, offset: u32, voices: seq<u32>)
    requires Listed(m, synth, offset, l.maxVoices, voices)
    ensures ListNodes(m, l, synth, offset) == voices
  {
    var head := ListHead(synth, offset);
    if head.Some? { CircularNodes(m, head.value, voices, l.maxVoices); }
  }

  lemma SilencedVoices(m: seq<byte>, l: Layout, c: Choice, synth: u32, alloc: seq<u32>, lame: seq<u32>)
    requires Listed(m, synth, l.allocList, l.maxVoices, alloc) && Listed(m, synth, l.lameList, l.maxVoices, lame)
    requires Disjoint(l, Heads(l, synth), alloc + lame, |m|)
    ensures var (n, count), voices := Silence(m, l, c, synth), alloc + lame;
            && |n| == |m| && count == CountChosen(m, l, c, voices)
            && (forall v :: v in voices && Chosen(m, l, c, v) ==> LoadBe32(n, StopWord(l, v)) == l.stopped)
            && (forall x: nat :: (forall v :: v in voices && Chosen(m, l, c, v) ==> !InWord(StopWord(l, v), x)) ==>
                  Guest(n, x) == Guest(m, x))
  {
    ListedNodes(m, l, synth, l.allocList, alloc);
    ListedNodes(m, l, synth, l.lameList, lame);
    assert Voices(m, l, synth) == alloc + lame;
    hide *;
    SilenceIs(m, l, c, synth);
    Outcome(m, l, c, Heads(l, synth), alloc + lame);
  }

  lemma FieldIs(l: Layout, v: u32)
    ensures StopWord(l, v) == FieldAt(v, l.stopField) && TableWord(l, v) == FieldAt(v, l.tableField)
  {}

  lemma StopsChosen(m: seq<byte>, n: seq<byte>, l: Layout, c: Choice, voices: seq<u32>, chosen: seq<u32>)
    requires |n| == |m| && forall v :: v in chosen <==> v in voices && Chosen(m, l, c, v)
    requires forall v :: v in voices && Chosen(m, l, c, v) ==> LoadBe32(n, StopWord(l, v)) == l.stopped
    requires forall x: nat :: (forall v :: v in voices && Chosen(m, l, c, v) ==> !InWord(StopWord(l, v), x)) ==>
               Guest(n, x) == Guest(m, x)
    ensures StopsJust(m, n, l, chosen)
  {
    hide LoadBe32, Guest, StopWord, FieldAt, Chosen, InWord;
    forall v | v in chosen ensures LoadBe32(n, FieldAt(v, l.stopField)) == l.stopped { FieldIs(l, v); }
    forall x: nat | forall v :: v in chosen ==> !InWord(FieldAt(v, l.stopField), x) ensures Guest(n, x) == Guest(m, x) {
      forall v | v in voices && Chosen(m, l, c, v) ensures !InWord(StopWord(l, v), x) { FieldIs(l, v); }
    }
  }

  lemma PlayingIsChosen(m: seq<byte>, l: Layout, v: u32, start: u32, end: u32)
    ensures Chosen(m, l, InRange(start, end), v) <==> PlaysFrom(m, l, v, start, end)
  {
    FieldIs(l, v);
    hide LoadBe32, TableWord, FieldAt;
  }

  // Silencing a range stops exactly the voices that play from it, and tells how many.
  lemma RangeSilenced(m: seq<byte>, l: Layout, start: u32, end: u32, synth: u32, alloc: seq<u32>, lame: seq<u32>)
    requires Listed(m, synth, l.allocList, l.maxVoices, alloc) && Listed(m, synth, l.lameList, l.maxVoices, lame)
    requires Disjoint(l, Heads(l, synth), alloc + lame, |m|)
    ensures var (n, count) := Silence(m, l, InRange(start, end), synth);
            var playing := Playing(m, l, alloc + lame, start, end);
            count == |playing| && StopsJust(m, n, l, playing)
  {
    hide *;
    SilencedVoices(m, l, InRange(start, end), synth, alloc, lame);
    CountPlaying(m, l, alloc + lame, start, end);
    forall v: u32 ensures Chosen(m, l, InRange(start, end), v) <==> PlaysFrom(m, l, v, start, end) {
      PlayingIsChosen(m, l, v, start, end);
    }
    StopsChosen(m, Silence(m, l, InRange(start, end), synth).0, l, InRange(start, end), alloc + lame,
                Playing(m, l, alloc + lame, start, end));
  }

  lemma EachChosen(m: seq<byte>, l: Layout, v: u32)
    ensures Chosen(m, l, All, v)
  {}

  // Silencing all stops every voice of both lists.
  lemma AllSilenced(m: seq<byte>, l: Layout, synth: u32, alloc: seq<u32>, lame: seq<u32>)
    requires Listed(m, synth, l.allocList, l.maxVoices, alloc) && Listed(m, synth, l.lameList, l.maxVoices, lame)
    requires Disjoint(l, Heads(l, synth), alloc + lame, |m|)
    ensures var (n, count) := Silence(m, l, All, synth);
            count == |alloc| + |lame| && StopsJust(m, n, l, alloc + lame)
  {
    hide *;
    SilencedVoices(m, l, All, synth, alloc, lame);
    CountEvery(m, l, alloc + lame);
    forall v: u32 ensures Chosen(m, l, All, v) { EachChosen(m, l, v); }
    StopsChosen(m, Silence(m, l, All, synth).0, l, All, alloc + lame, alloc + lame);
  }
}
