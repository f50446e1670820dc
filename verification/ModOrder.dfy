// The order of opened mods (mods.cpp): moving a mod in a view, ordering the mods from a saved
// configuration, and the inverse lookup.
module ModOrder {
  import opened Options
  import opened Arith
  import opened ModDependencies
  import opened OrderScan

  // --- The context's order list ------------------------------------------------------------------

  predicate Below(order: seq<nat>, n: nat) { forall i :: 0 <= i < |order| ==> order[i] < n }

  // Every mod once.
  ghost predicate IsPermutation(order: seq<nat>, n: nat) {
    Below(order, n) && (forall y: nat :: y < n ==> Count(order, y) == 1)
  }

  // For each mod its last position in the order, None for a mod that is not there.
  ghost predicate Inverse(order: seq<nat>, lookup: seq<Option<nat>>, n: nat) {
    && |lookup| == n
    && (forall y: nat :: y < n ==> (lookup[y].None? <==> y !in order))
    && (forall y: nat :: y < n && lookup[y].Some? ==>
          var p := lookup[y].value;
          p < |order| && order[p] == y && forall q :: p < q < |order| ==> order[q] != y)
  }

  // On a permutation the lookup is the inverse permutation.
  lemma InversePermutation(order: seq<nat>, lookup: seq<Option<nat>>, n: nat)
    requires IsPermutation(order, n) && Inverse(order, lookup, n)
    ensures |order| == n
    ensures forall p :: 0 <= p < n ==> order[p] < n && lookup[order[p]] == Some(p)
    ensures forall y: nat :: y < n ==> lookup[y].Some? && lookup[y].value < n && order[lookup[y].value] == y
  {
    PermutationLength(order, n);
    forall p | 0 <= p < n ensures order[p] < n && lookup[order[p]] == Some(p) {
      var y := order[p];
      assert y in order && y < n;
      var q := lookup[y].value;
      if p < q { CountTwo(order, p, q); }
    }
    forall y: nat | y < n ensures y in order { CountIn(order, y); }
  }

  lemma {:induction false} PermutationLength(order: seq<nat>, n: nat)
    requires IsPermutation(order, n)
    ensures |order| == n
    decreases n
  {
    hide Others, Count;
    assert |order| > 0 ==> order[0] < n;
    if n > 0 {
      var rest := Others(order, n - 1);
      OthersKeepsCounts(order, n - 1, n - 1);
      forall y: nat | y < n - 1 ensures Count(rest, y) == 1 { OthersKeepsCounts(order, n - 1, y); }
      forall p | 0 <= p < |rest| ensures rest[p] < n - 1 { OtherBelow(order, n - 1, rest[p]); }
      PermutationLength(rest, n - 1);
    }
  }

  lemma OtherBelow(order: seq<nat>, x: nat, y: nat)
    requires Below(order, x + 1) && y in Others(order, x)
    ensures y < x
  {
    CountIn(Others(order, x), y);
    OthersKeepsCounts(order, x, y);
    CountIn(order, y);
  }

  lemma StillPermutation(order0: seq<nat>, order: seq<nat>, x: nat, n: nat)
    requires IsPermutation(order0, n) && x < n && Others(order, x) == Others(order0, x)
    ensures IsPermutation(order, n) <==> Count(order, x) == 1
  {
    if Count(order, x) == 1 {
      forall y: nat | y < n ensures Count(order, y) == 1 {
        OthersKeepsCounts(order, x, y);
        OthersKeepsCounts(order0, x, y);
      }
      OthersBelow(order0, order, x, n);
    }
  }

  lemma OthersBelow(order0: seq<nat>, order: seq<nat>, x: nat, n: nat)
    requires Below(order0, n) && x < n && Others(order, x) == Others(order0, x)
    ensures Below(order, n)
  {
    forall p | 0 <= p < |order| ensures order[p] < n {
      var y := order[p];
      CountIn(order, y);
      OthersKeepsCounts(order, x, y);
      OthersKeepsCounts(order0, x, y);
      CountIn(order0, y);
    }
  }

  lemma OneEntry(order: seq<nat>, n: nat, x: nat)
    requires IsPermutation(order, n) && x < n
    ensures Count(order, x) == 1 && x in order && |order| == n
  {
    CountIn(order, x);
    PermutationLength(order, n);
  }

  lemma ViewsAll(order: seq<nat>, n: nat)
    requires IsPermutation(order, n)
    ensures forall y :: y in order ==> y < n
  {}

  // A permutation after the scan.
  lemma Repositioned(order0: seq<nat>, order: seq<nat>, x: nat, n: nat, index: nat, visible: set<nat>)
    requires IsPermutation(order0, n) && x < n && Others(order, x) == Others(order0, x)
    requires Count(order, x) == Count(order0, x) + if x in visible && x in order0 then 0 else 1
    requires x in order0 && x in visible ==> LandsAt(order, x, Landing(order0, x, index, visible), visible)
    requires x in order0 && (forall y :: y in order0 ==> y in visible) ==>
               |order| == |order0| && order[Min(index, |order0| - 1)] == x
    ensures Below(order, n) && x in order0 && (IsPermutation(order, n) <==> x in visible)
    ensures x !in visible ==> Count(order, x) == 2
    ensures x in visible ==>
              x in order && Shown(order[..PlaceOf(order, x)], visible) == Landing(order0, x, index, visible)
    ensures (forall y :: y in order0 ==> y in visible) ==>
              Min(index, n - 1) <= |Others(order0, x)| && order == Insert(Others(order0, x), Min(index, n - 1), x)
  {
    hide Others, Count, LandsAt, Landing, Shown, PlaceOf, Insert;
    OneEntry(order0, n, x);
    StillPermutation(order0, order, x, n);
    OthersBelow(order0, order, x, n);
    hide Below, IsPermutation;
    if x in visible { RankIs(order, x, Landing(order0, x, index, visible), visible); }
    if forall y :: y in order0 ==> y in visible { OnlyEntry(order, x, Min(index, n - 1)); }
  }

  class ModList {
    const mods: Mods
    const gameIds: map<string, nat>
    var order: seq<nat>
    var lookup: seq<Option<nat>>

    ghost predicate Valid()
      reads this
    {
      && ModsOk(mods)
      && IsPermutation(order, |mods.list|) && Inverse(order, lookup, |mods.list|)
    }

    // Whether a view shows a mod; the empty game id views every game's mods.
    predicate Shows(gameId: string, k: nat)
      requires k < |mods.list|
    {
      gameId == "" || (gameId in gameIds && gameIds[gameId] in mods.list[k].games)
    }

    method RebuildLookup()
      requires Below(order, |mods.list|)
      modifies this`lookup
      ensures Inverse(order, lookup, |mods.list|)
    {
      lookup := seq(|mods.list|, _ => None);
      for k := 0 to |order|
        invariant Inverse(order[..k], lookup, |mods.list|)
      {
        assert order[..k + 1] == order[..k] + [order[k]];
        lookup := lookup[order[k] := Some(k)];
      }
      assert order[..|order|] == order;
    }

    function View(gameId: string): set<nat> { set k | 0 <= k < |mods.list| && Shows(gameId, k) }

    // Moving a mod the view does not show leaves it in the list twice; otherwise the other
    // mods keep their order, and the mod lands in its view as OrderScan.Landing says: in the view
    // of every game at the asked index, or last.
    method SetModIndex(gameId: string, id: Id, index: nat)
      requires Valid()
      modifies this
      ensures id !in mods.byId ==> Valid() && order == old(order)
      ensures id in mods.byId ==>
                var x := mods.byId[id];
                && Others(order, x) == Others(old(order), x)
                && (Valid() <==> Shows(gameId, x))
                && (!Shows(gameId, x) ==> Count(order, x) == 2)
                && Inverse(order, lookup, |mods.list|)
      ensures id in mods.byId && gameId == "" ==>
                var x := mods.byId[id];
                var at := Min(index, |mods.list| - 1);
                at <= |Others(old(order), x)| && order == Insert(Others(old(order), x), at, x)
      ensures id in mods.byId && Shows(gameId, mods.byId[id]) ==>
                var x, view := mods.byId[id], View(gameId);
                && x in old(order) && x in order
                && Shown(order[..PlaceOf(order, x)], view) == Landing(old(order), x, index, view)
    {
      hide Others, Count, Below, Landing, LandsAt, Shown, PlaceOf, IsPermutation, Insert, Inverse;
      if id !in mods.byId { return; }
      var x, visible := mods.byId[id], View(gameId);
      ghost var order0 := order;
      OneEntry(order, |mods.list|, x);
      order := Reposition(order, x, index, visible);
      Repositioned(order0, order, x, |mods.list|, index, visible);
      if gameId == "" { ViewsAll(order0, |mods.list|); }
      RebuildLookup();
    }

    // New mods keep their index as sort key; those the saved order names sort after them.
    method LoadOrder(saved: seq<Id>)
      requires ModsOk(mods)
      modifies this
      ensures Valid() && Ordered(mods, saved, order)
    {
      var n := |mods.list|;
      var key := seq(n, k => k);
      for p := 0 to |saved|
        invariant |key| == n && forall k :: 0 <= k < n ==> key[k] == Key(mods, saved[..p], k)
      {
        assert saved[..p + 1][..p] == saved[..p];
        if saved[p] in mods.byId { key := key[mods.byId[saved[p]] := n + p]; }
      }
      assert saved[..|saved|] == saved;
      order := SortedBy(key, n);
      SortedByIs(key, n);
      SortedIsOrdered(mods, saved, key, order);
      RebuildLookup();
    }
  }

  // --- The saved order -----------------------------------------------------------------------------

  // A mod's sort key: its index when the saved order does not name it, otherwise beyond every
  // index, by the last place that names it.
  function Key(m: Mods, saved: seq<Id>, k: nat): nat
    requires ModsOk(m)
  {
    if saved == [] then k
    else
      var last := saved[|saved| - 1];
      if last in m.byId && m.byId[last] == k then |m.list| + |saved| - 1 else Key(m, saved[..|saved| - 1], k)
  }

  // The last place in the saved order that names mod k.
  ghost predicate NamedLast(m: Mods, saved: seq<Id>, k: nat, p: nat) {
    && p < |saved| && saved[p] in m.byId && m.byId[saved[p]] == k
    && forall q :: p < q < |saved| && saved[q] in m.byId ==> m.byId[saved[q]] != k
  }

  ghost predicate Known(m: Mods, saved: seq<Id>, k: nat) {
    exists p :: 0 <= p < |saved| && saved[p] in m.byId && m.byId[saved[p]] == k
  }

  // New mods first, by index, then the known ones, in the order in which the saved list names
  // them last.
  ghost predicate Ordered(m: Mods, saved: seq<Id>, order: seq<nat>) {
    && IsPermutation(order, |m.list|)
    && (forall i, j :: 0 <= i < j < |order| && !Known(m, saved, order[i]) && !Known(m, saved, order[j]) ==>
          order[i] < order[j])
    && (forall i, j :: 0 <= i < j < |order| && Known(m, saved, order[i]) ==> Known(m, saved, order[j]))
    && (forall i, j, p, q ::
          0 <= i < j < |order| && NamedLast(m, saved, order[i], p) && NamedLast(m, saved, order[j], q) ==> p < q)
  }

  lemma {:induction false} KeyIs(m: Mods, saved: seq<Id>, k: nat)
    requires ModsOk(m)
    ensures !Known(m, saved, k) ==> Key(m, saved, k) == k
    ensures Known(m, saved, k) ==>
              var p := Key(m, saved, k) - |m.list|; p >= 0 && NamedLast(m, saved, k, p)
  {
    if saved != [] {
      var n := |saved| - 1;
      var front := saved[..n];
      if !(saved[n] in m.byId && m.byId[saved[n]] == k) {
        KeyIs(m, front, k);
        if Known(m, saved, k) {
          var p :| 0 <= p < |saved| && saved[p] in m.byId && m.byId[saved[p]] == k;
          assert front[p] == saved[p];
        }
        if Known(m, front, k) {
          var p :| 0 <= p < |front| && front[p] in m.byId && m.byId[front[p]] == k;
          assert saved[p] == front[p];
        }
      }
    }
  }

  // std::sort on the indices below n: keys increase along the result.
  function SortedBy(key: seq<nat>, n: nat): (r: seq<nat>)
    requires n <= |key|
    ensures Below(r, n)
  {
    if n == 0 then [] else Place(key, SortedBy(key, n - 1), n - 1)
  }

  // Insert x before the first entry with a larger key.
  function Place(key: seq<nat>, order: seq<nat>, x: nat): (r: seq<nat>)
    requires x < |key| && Below(order, |key|)
    ensures forall n :: x < n && Below(order, n) ==> Below(r, n)
  {
    if order == [] then [x]
    else if key[x] < key[order[0]] then [x] + order
    else
      assert forall n :: Below(order, n) ==> Below(order[1..], n);
      [order[0]] + Place(key, order[1..], x)
  }

  ghost predicate Increasing(key: seq<nat>, order: seq<nat>)
    requires Below(order, |key|)
  {
    forall i, j :: 0 <= i < j < |order| ==> key[order[i]] <= key[order[j]]
  }

  lemma {:induction false} PlaceCounts(key: seq<nat>, order: seq<nat>, x: nat, y: nat)
    requires x < |key| && Below(order, |key|)
    ensures Count(Place(key, order, x), y) == Count(order, y) + if x == y then 1 else 0
  {
    if order == [] {
    } else if key[x] < key[order[0]] {
      Concat([x], order, y);
    } else {
      PlaceCounts(key, order[1..], x, y);
      Concat([order[0]], Place(key, order[1..], x), y);
    }
  }

  // Inserting keeps a lower bound of all the keys.
  ghost predicate AllFrom(key: seq<nat>, order: seq<nat>, low: nat)
    requires Below(order, |key|)
  {
    forall i :: 0 <= i < |order| ==> low <= key[order[i]]
  }

  lemma {:induction false} PlaceSorts(key: seq<nat>, order: seq<nat>, x: nat, low: nat)
    requires x < |key| && Below(order, |key|) && Increasing(key, order) && AllFrom(key, order, low) && low <= key[x]
    ensures Increasing(key, Place(key, order, x)) && AllFrom(key, Place(key, order, x), low)
  {
    if order == [] {
    } else if key[x] < key[order[0]] {
    } else {
      PlaceSorts(key, order[1..], x, key[order[0]]);
    }
  }

  lemma {:induction false} SortedByIs(key: seq<nat>, n: nat)
    requires n <= |key|
    ensures Increasing(key, SortedBy(key, n)) && IsPermutation(SortedBy(key, n), n)
    decreases n
  {
    if n > 0 {
      SortedByIs(key, n - 1);
      var before := SortedBy(key, n - 1);
      PlaceSorts(key, before, n - 1, 0);
      CountIn(before, n - 1);
      forall y: nat ensures Count(SortedBy(key, n), y) == Count(before, y) + if n - 1 == y then 1 else 0 {
        PlaceCounts(key, before, n - 1, y);
      }
    }
  }

  lemma SortedIsOrdered(m: Mods, saved: seq<Id>, key: seq<nat>, order: seq<nat>)
    requires ModsOk(m) && |key| == |m.list| && IsPermutation(order, |m.list|) && Increasing(key, order)
    requires forall k :: 0 <= k < |key| ==> key[k] == Key(m, saved, k)
    ensures Ordered(m, saved, order)
  {
    forall i, j | 0 <= i < j < |order|
      ensures !Known(m, saved, order[i]) && !Known(m, saved, order[j]) ==> order[i] < order[j]
      ensures Known(m, saved, order[i]) ==> Known(m, saved, order[j])
      ensures forall p, q :: NamedLast(m, saved, order[i], p) && NamedLast(m, saved, order[j], q) ==> p < q
    {
      assert order[i] in order && order[j] in order;
      KeyIs(m, saved, order[i]);
      KeyIs(m, saved, order[j]);
      if order[i] == order[j] { CountTwo(order, i, j); }
    }
  }
}
