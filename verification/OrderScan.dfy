// The scan that moves a mod in the order list (mods.cpp): one pass that inserts it at its new
// place and erases it from its old one, in the list it is scanning.
module OrderScan {
  import opened Arith

  // --- Lists without one entry --------------------------------------------------------------

  // The list without its entries for mod x, order kept.
  function Others(order: seq<nat>, x: nat): (r: seq<nat>)
    ensures x !in r
  {
    if order == [] then []
    else if order[0] == x then Others(order[1..], x)
    else [order[0]] + Others(order[1..], x)
  }

  function Count(order: seq<nat>, x: nat): nat {
    if order == [] then 0 else (if order[0] == x then 1 else 0) + Count(order[1..], x)
  }

  lemma {:induction false} OthersConcat(a: seq<nat>, b: seq<nat>, x: nat)
    ensures Others(a + b, x) == Others(a, x) + Others(b, x)
    decreases |a|
  {
    if a == [] {
      assert a + b == b;
    } else {
      OthersConcat(a[1..], b, x);
      assert (a + b)[0] == a[0] && (a + b)[1..] == a[1..] + b;
      var front, back := Others(a[1..], x), Others(b, x);
      assert [a[0]] + (front + back) == ([a[0]] + front) + back;
    }
  }

  lemma {:induction false} CountConcat(a: seq<nat>, b: seq<nat>, x: nat)
    ensures Count(a + b, x) == Count(a, x) + Count(b, x)
    decreases |a|
  {
    if a == [] {
      assert a + b == b;
    } else {
      CountConcat(a[1..], b, x);
      assert (a + b)[1..] == a[1..] + b;
    }
  }

  lemma Concat(a: seq<nat>, b: seq<nat>, x: nat)
    ensures Others(a + b, x) == Others(a, x) + Others(b, x)
    ensures Count(a + b, x) == Count(a, x) + Count(b, x)
  {
    OthersConcat(a, b, x);
    CountConcat(a, b, x);
  }

  function Insert(order: seq<nat>, i: nat, x: nat): seq<nat>
    requires i <= |order|
  {
    order[..i] + [x] + order[i..]
  }

  function Erase(order: seq<nat>, i: nat): seq<nat>
    requires i < |order|
  {
    order[..i] + order[i + 1..]
  }

  lemma Single(x: nat)
    ensures Others([x], x) == [] && Count([x], x) == 1
  {
    var rest: seq<nat> := [x][1..];
    assert rest == [] && Count(rest, x) == 0 && Others(rest, x) == [];
  }

  lemma InsertCounts(order: seq<nat>, i: nat, x: nat)
    requires i <= |order|
    ensures Count(Insert(order, i, x), x) == Count(order, x) + 1
    ensures Others(Insert(order, i, x), x) == Others(order, x)
  {
    assert order == order[..i] + order[i..];
    Single(x);
    hide Others, Count;
    var front, back := order[..i], order[i..];
    Concat(front, back, x);
    Concat(front + [x], back, x);
    Concat(front, [x], x);
  }

  lemma EraseCounts(order: seq<nat>, i: nat)
    requires i < |order|
    ensures var x := order[i];
            Count(Erase(order, i), x) == Count(order, x) - 1 && Others(Erase(order, i), x) == Others(order, x)
  {
    hide Others, Count;
    assert Insert(Erase(order, i), i, order[i]) == order;
    InsertCounts(Erase(order, i), i, order[i]);
  }

  lemma {:induction false} OthersKeepsCounts(order: seq<nat>, x: nat, y: nat)
    ensures |order| == |Others(order, x)| + Count(order, x)
    ensures y != x ==> Count(Others(order, x), y) == Count(order, y)
  {
    if order != [] {
      OthersKeepsCounts(order[1..], x, y);
      if order[0] != x { CountConcat([order[0]], Others(order[1..], x), y); }
    }
  }

  lemma {:induction false} CountIn(order: seq<nat>, x: nat)
    ensures x in order <==> Count(order, x) > 0
  {
    if order != [] { CountIn(order[1..], x); }
  }

  lemma CountTwo(order: seq<nat>, p: nat, q: nat)
    requires p < q < |order| && order[p] == order[q]
    ensures Count(order, order[p]) >= 2
  {
    var x := order[p];
    assert order == order[..q] + order[q..] && order[..q][p] == x && order[q..][0] == x;
    Concat(order[..q], order[q..], x);
    CountIn(order[..q], x);
    CountIn(order[q..], x);
  }

  // One entry for x, at position p: the rest determines the list.
  lemma OnlyEntry(order: seq<nat>, x: nat, p: nat)
    requires p < |order| && order[p] == x && Count(order, x) == 1
    ensures p <= |Others(order, x)| && order == Insert(Others(order, x), p, x)
  {
    var rest := Erase(order, p);
    EraseCounts(order, p);
    CountIn(rest, x);
    OthersOfNone(rest, x);
    assert Insert(rest, p, x) == order;
  }

  lemma {:induction false} OthersOfNone(order: seq<nat>, x: nat)
    requires x !in order
    ensures Others(order, x) == order
  {
    if order != [] { OthersOfNone(order[1..], x); }
  }

  // --- Views ----------------------------------------------------------------------------------

  // How many entries of a list a view shows.
  function Shown(s: seq<nat>, visible: set<nat>): nat {
    if s == [] then 0
    else Shown(s[..|s| - 1], visible) + if s[|s| - 1] in visible then 1 else 0
  }

  lemma {:induction false} ShownConcat(a: seq<nat>, b: seq<nat>, visible: set<nat>)
    ensures Shown(a + b, visible) == Shown(a, visible) + Shown(b, visible)
    decreases |b|
  {
    if b == [] {
      assert a + b == a;
    } else {
      var n := |b| - 1;
      ShownConcat(a, b[..n], visible);
      assert (a + b)[..|a + b| - 1] == a + b[..n];
    }
  }

  lemma ShownSplit(s: seq<nat>, i: nat, j: nat, visible: set<nat>)
    requires i <= j <= |s|
    ensures Shown(s[..j], visible) == Shown(s[..i], visible) + Shown(s[i..j], visible)
    ensures Shown(s, visible) == Shown(s[..j], visible) + Shown(s[j..], visible)
  {
    assert s[..j] == s[..i] + s[i..j] && s == s[..j] + s[j..];
    ShownConcat(s[..i], s[i..j], visible);
    ShownConcat(s[..j], s[j..], visible);
  }

  lemma ShownOne(s: seq<nat>, i: nat, j: nat, visible: set<nat>)
    requires i <= j < |s|
    ensures Shown(s[i..j + 1], visible) == Shown(s[i..j], visible) + if s[j] in visible then 1 else 0
  {
    assert s[i..j + 1][..|s[i..j + 1]| - 1] == s[i..j];
  }

  // The first place of x.
  function PlaceOf(order: seq<nat>, x: nat): (p: nat)
    requires x in order
    ensures p < |order| && order[p] == x && forall k :: 0 <= k < p ==> order[k] != x
  {
    if order[0] == x then 0 else PlaceOf(order[1..], x) + 1
  }

  // Where in its view a mod lands when it is moved to `index`: there, or last; but one short when
  // it moves down and the view does not show the entry right after it.
  function Landing(order: seq<nat>, x: nat, index: nat, visible: set<nat>): int
    requires x in order
  {
    var p := PlaceOf(order, x);
    var n := Shown(order, visible);
    if Shown(order[..p], visible) < index < n && p + 1 < |order| && order[p + 1] !in visible
    then index - 1 else Min(index, n - 1)
  }

  ghost predicate LandsAt(order: seq<nat>, x: nat, rank: int, visible: set<nat>) {
    exists p :: 0 <= p < |order| && order[p] == x && Shown(order[..p], visible) == rank
  }

  // The shown entries from position i up to position j, as far as there are any.
  function ShownFrom(s: seq<nat>, i: nat, j: nat, visible: set<nat>): nat {
    if i <= j <= |s| then Shown(s[i..j], visible) else 0
  }

  // How far the scan has come: nothing done yet, inserted, erased, or both.
  ghost predicate Stage(order0: seq<nat>, order: seq<nat>, x: nat, index: nat, visible: set<nat>,
                        i: nat, shown: nat, inserted: bool, erased: bool)
  {
    x in order0 &&
    var p := PlaceOf(order0, x);
    var v := Shown(order0[..p], visible);
    if !inserted && !erased then order == order0 && i <= p && shown == Shown(order0[..i], visible)
    else if !erased then
      exists q :: 0 <= q <= p && order == Insert(order0, q, x) && Shown(order0[..q], visible) == index && q < i <= p + 1
    else if !inserted then
      && order == Erase(order0, p) && p < i && (i <= |order| || i == p + 1) && v < index
      && shown == v + 1 + ShownFrom(order, p + 1, i, visible)
    else LandsAt(order, x, Landing(order0, x, index, visible), visible)
  }

  lemma OnlyPlace(order: seq<nat>, x: nat, i: nat)
    requires i < |order| && order[i] == x && Count(order, x) == 1
    ensures x in order && PlaceOf(order, x) == i
  {
    hide Count;
    var p := PlaceOf(order, x);
    if p < i { CountTwo(order, p, i); }
  }

  // Up to the old place of x.
  lemma BeforePlace(order: seq<nat>, x: nat, index: nat, visible: set<nat>, i: nat, shown: nat)
    requires x in order && x in visible && Stage(order, order, x, index, visible, i, shown, false, false)
    requires shown <= index && i < |order| && Count(order, x) == 1
    ensures var entry := order[i];
            if entry !in visible then Stage(order, order, x, index, visible, i + 1, shown, false, false)
            else if index == shown then
              Stage(order, Insert(order, i, x), x, index, visible, i + 1, shown + 1, true, false)
            else if entry == x then Stage(order, Erase(order, i), x, index, visible, i + 1, shown + 1, false, true)
            else Stage(order, order, x, index, visible, i + 1, shown + 1, false, false)
  {
    hide Count, Landing, LandsAt, Insert, Erase;
    assert order[..i + 1][..i] == order[..i];
    if order[i] == x {
      OnlyPlace(order, x, i);
      assert ShownFrom(Erase(order, i), i + 1, i + 1, visible) == 0 by { NoneShown(Erase(order, i), i + 1, visible); }
    }
  }

  lemma NoneShown(s: seq<nat>, i: nat, visible: set<nat>)
    ensures ShownFrom(s, i, i, visible) == 0
  {}

  // Ranks of two places, the later one shown.
  lemma RanksGrow(order: seq<nat>, q: nat, p: nat, visible: set<nat>)
    requires q <= p < |order| && order[p] in visible
    ensures Shown(order[..q], visible) <= Shown(order[..p], visible) < Shown(order, visible)
  {
    ShownSplit(order, q, p, visible);
    ShownSplit(order, p, p + 1, visible);
    ShownOne(order, p, p, visible);
    hide Shown;
  }

  lemma MovedUp(order0: seq<nat>, x: nat, q: nat, index: nat, visible: set<nat>)
    requires x in order0 && x in visible && q <= PlaceOf(order0, x) && Shown(order0[..q], visible) == index
    ensures var p := PlaceOf(order0, x);
            LandsAt(Erase(Insert(order0, q, x), p + 1), x, Landing(order0, x, index, visible), visible)
  {
    var p := PlaceOf(order0, x);
    var done := Erase(Insert(order0, q, x), p + 1);
    RanksGrow(order0, q, p, visible);
    hide Shown;
    assert done[q] == x && done[..q] == order0[..q];
  }

  // Inserted before the old place, looking for it.
  lemma BeforeErase(order0: seq<nat>, order: seq<nat>, x: nat, index: nat, visible: set<nat>, i: nat, shown: nat)
    requires x in order0 && x in visible && Stage(order0, order, x, index, visible, i, shown, true, false)
    requires i < |order| && Count(order0, x) == 1
    ensures if order[i] == x then Stage(order0, Erase(order, i), x, index, visible, i + 1, shown + 1, true, true)
            else
              var shown' := shown + if order[i] in visible then 1 else 0;
              Stage(order0, order, x, index, visible, i + 1, shown', true, false)
  {
    hide Count, Shown, Landing, LandsAt, Erase;
    var p := PlaceOf(order0, x);
    var q :| 0 <= q <= p && order == Insert(order0, q, x) && Shown(order0[..q], visible) == index && q < i <= p + 1;
    assert order[i] == order0[i - 1];
    if order[i] == x {
      OnlyPlace(order0, x, i - 1);
      MovedUp(order0, x, q, index, visible);
    } else {
      assert i - 1 != p;
    }
  }

  // Ranks in a list and in the list without the entry at p.
  lemma ErasedRank(order0: seq<nat>, order: seq<nat>, p: nat, i: nat, visible: set<nat>)
    requires p < |order0| && order0[p] in visible && order == Erase(order0, p) && p < i <= |order|
    ensures Shown(order[..i], visible) == Shown(order0[..p], visible) + (if order0[p + 1] in visible then 1 else 0)
                                          + Shown(order[p + 1..i], visible)
  {
    hide Shown;
    assert order[..p] == order0[..p] && order[p] == order0[p + 1];
    ShownSplit(order, p, i, visible);
    assert order[p..i] == [order[p]] + order[p + 1..i];
    ShownConcat([order[p]], order[p + 1..i], visible);
    ShownSingle(order[p], visible);
  }

  lemma ShownSingle(y: nat, visible: set<nat>)
    ensures Shown([y], visible) == if y in visible then 1 else 0
  {
    assert [y][..0] == [];
  }

  lemma ErasedTotal(order0: seq<nat>, order: seq<nat>, p: nat, visible: set<nat>)
    requires p < |order0| && order0[p] in visible && order == Erase(order0, p)
    ensures Shown(order, visible) == Shown(order0, visible) - 1
  {
    hide Shown;
    var front, back := order0[..p], order0[p + 1..];
    assert order0 == front + ([order0[p]] + back) && order == front + back;
    ShownConcat(front, [order0[p]] + back, visible);
    ShownConcat([order0[p]], back, visible);
    ShownConcat(front, back, visible);
    ShownSingle(order0[p], visible);
  }

  // The rank at which the counted place is met, or the end.
  lemma CountedRank(order0: seq<nat>, order: seq<nat>, x: nat, index: nat, visible: set<nat>, i: nat, shown: nat)
    requires x in order0 && x in visible && Stage(order0, order, x, index, visible, i, shown, false, true)
    requires i <= |order| && (if i < |order| then order[i] in visible && index == shown else shown <= index)
    ensures Shown(order[..i], visible) == Landing(order0, x, index, visible)
  {
    var p := PlaceOf(order0, x);
    ErasedRank(order0, order, p, i, visible);
    ErasedTotal(order0, order, p, visible);
    if i < |order| { RanksGrow(order, i, i, visible); } else { assert order[..i] == order; }
    hide Shown, PlaceOf;
  }

  // Erased, counting towards the asked place; the entry after the old place was not looked at.
  lemma BeforeInsert(order0: seq<nat>, order: seq<nat>, x: nat, index: nat, visible: set<nat>, i: nat, shown: nat)
    requires x in order0 && x in visible && Stage(order0, order, x, index, visible, i, shown, false, true)
    requires shown <= index && i < |order| && Count(order0, x) == 1
    ensures order[i] != x
    ensures if order[i] !in visible then Stage(order0, order, x, index, visible, i + 1, shown, false, true)
            else if index == shown then
              Stage(order0, Insert(order, i, x), x, index, visible, i + 1, shown + 1, true, true)
            else Stage(order0, order, x, index, visible, i + 1, shown + 1, false, true)
  {
    var p := PlaceOf(order0, x);
    EraseCounts(order0, p);
    CountIn(order, x);
    ShownOne(order, p + 1, i, visible);
    if order[i] in visible && index == shown {
      CountedRank(order0, order, x, index, visible, i, shown);
      var done := Insert(order, i, x);
      assert done[i] == x && done[..i] == order[..i];
    }
    hide Count, Shown, Landing, Insert, PlaceOf;
  }

  // The end of the list, where a mod that has found no place is put.
  lemma AtEnd(order0: seq<nat>, order: seq<nat>, x: nat, index: nat, visible: set<nat>, i: nat, shown: nat,
              erased: bool)
    requires x in order0 && x in visible && Stage(order0, order, x, index, visible, i, shown, false, erased)
    requires shown <= index && i >= |order|
    ensures erased && LandsAt(order + [x], x, Landing(order0, x, index, visible), visible)
  {
    hide Count;
    var p, done := PlaceOf(order0, x), order + [x];
    assert done[|order|] == x && done[..|order|] == order;
    if i == |order| {
      assert order[..i] == order;
      CountedRank(order0, order, x, index, visible, i, shown);
    } else {
      assert order == order0[..p];
      ErasedTotal(order0, order, p, visible);
    }
  }

  lemma Starts(order: seq<nat>, x: nat, index: nat, visible: set<nat>)
    requires x in order && Count(order, x) <= 1
    ensures Stage(order, order, x, index, visible, 0, 0, false, false) && Count(order, x) == 1
  {
    assert order[..0] == [];
    CountIn(order, x);
  }

  // One trip of the scan.
  lemma StageStep(order0: seq<nat>, order: seq<nat>, x: nat, index: nat, visible: set<nat>,
                  i: nat, shown: nat, inserted: bool, erased: bool)
    requires x in order0 && x in visible && Count(order0, x) <= 1
    requires Stage(order0, order, x, index, visible, i, shown, inserted, erased)
    requires i < |order| && !(inserted && erased) && (inserted <==> index < shown)
    ensures var entry := order[i];
            if entry !in visible then Stage(order0, order, x, index, visible, i + 1, shown, inserted, erased)
            else if index == shown then
              Stage(order0, Insert(order, i, x), x, index, visible, i + 1, shown + 1, true, erased)
            else if x == entry then
              Stage(order0, Erase(order, i), x, index, visible, i + 1, shown + 1, inserted, true)
            else Stage(order0, order, x, index, visible, i + 1, shown + 1, inserted, erased)
  {
    Starts(order0, x, index, visible);
    if inserted {
      BeforeErase(order0, order, x, index, visible, i, shown);
    } else if erased {
      BeforeInsert(order0, order, x, index, visible, i, shown);
    } else {
      NothingDone(order0, order, x, index, visible, i, shown);
      BeforePlace(order0, x, index, visible, i, shown);
    }
    hide Stage, Count, Insert, Erase;
  }

  lemma NothingDone(order0: seq<nat>, order: seq<nat>, x: nat, index: nat, visible: set<nat>, i: nat, shown: nat)
    requires Stage(order0, order, x, index, visible, i, shown, false, false)
    ensures order == order0
  {}

  lemma StageEnds(order0: seq<nat>, order: seq<nat>, x: nat, index: nat, visible: set<nat>,
                  i: nat, shown: nat, inserted: bool, erased: bool)
    requires x in order0 && x in visible && Count(order0, x) <= 1
    requires Stage(order0, order, x, index, visible, i, shown, inserted, erased)
    requires (i >= |order| || (inserted && erased)) && (inserted <==> index < shown)
    ensures LandsAt(if inserted then order else order + [x], x, Landing(order0, x, index, visible), visible)
  {
    if !inserted { AtEnd(order0, order, x, index, visible, i, shown, erased); }
    hide LandsAt, Landing, Shown;
  }

  lemma RankIs(order: seq<nat>, x: nat, rank: int, visible: set<nat>)
    requires LandsAt(order, x, rank, visible) && Count(order, x) == 1
    ensures x in order && Shown(order[..PlaceOf(order, x)], visible) == rank
  {
    var p :| 0 <= p < |order| && order[p] == x && Shown(order[..p], visible) == rank;
    OnlyPlace(order, x, p);
  }

  // A mod lands where it was asked to, or last, if and only if it does not move down past a hidden
  // neighbour.
  lemma LandsAsAsked(order: seq<nat>, x: nat, index: nat, visible: set<nat>)
    requires x in order && x in visible
    ensures var p, n := PlaceOf(order, x), Shown(order, visible);
            Landing(order, x, index, visible) == Min(index, n - 1) <==>
            index <= Shown(order[..p], visible) || n <= index || p + 1 == |order| || order[p + 1] in visible
  {
    hide Shown;
  }

  // Three mods, of which a view shows the first and the last: moving the first down by one leaves
  // it where it was.
  lemma DownByOneStays()
    ensures Landing([0, 1, 2], 0, 1, {0, 2}) == 0 && Shown([0, 1, 2], {0, 2}) == 2
  {
    var order, visible: set<nat> := [0, 1, 2], {0, 2};
    assert order[..2] == [0, 1] && order[..2][..1] == [0] && [0][..0] == [];
    assert Shown([0], visible) == 1 && Shown([0, 1], visible) == 1 && Shown(order, visible) == 2;
    assert PlaceOf(order, 0) == 0 && order[..0] == [];
  }

  // --- The scan ------------------------------------------------------------------------------

  // Insert x before the entry at visible position `index` and erase x, in one pass over the
  // list that both operations change.
  method Reposition(order0: seq<nat>, x: nat, index: nat, visible: set<nat>) returns (order: seq<nat>)
    requires Count(order0, x) <= 1
    ensures Others(order, x) == Others(order0, x)
    ensures Count(order, x) == Count(order0, x) + if x in visible && x in order0 then 0 else 1
    ensures x in order0 && (forall y :: y in order0 ==> y in visible) ==>
              |order| == |order0| && order[Min(index, |order0| - 1)] == x
    ensures x in order0 && x in visible ==> LandsAt(order, x, Landing(order0, x, index, visible), visible)
  {
    hide Others, Count, Stage, LandsAt, Landing;
    if x in order0 { Starts(order0, x, index, visible); }
    order := order0;
    ghost var all := x in order0 && forall y :: y in order0 ==> y in visible;
    var shown, i, inserted, erased := 0, 0, false, false;
    while i < |order| && (!inserted || !erased)
      invariant i <= |order| + (if erased then 1 else 0) && (inserted <==> index < shown)
      invariant Others(order, x) == Others(order0, x)
      invariant Count(order, x) == Count(order0, x) + (if inserted then 1 else 0) - if erased then 1 else 0
      invariant |order| == |order0| + (if inserted then 1 else 0) - if erased then 1 else 0
      invariant erased ==> x in visible && x in order0
      invariant !erased && x in visible ==> (x in order0 <==> x in order[i..])
      invariant all ==> shown == i && (forall y :: y in order ==> y in visible)
      invariant all && inserted ==> index < |order| && order[index] == x
      invariant x in order0 && x in visible ==> Stage(order0, order, x, index, visible, i, shown, inserted, erased)
      decreases !inserted, |order| - i
    {
      var entry := order[i];
      ghost var before := order;
      CountIn(order, x);
      if x in order0 && x in visible {
        StageStep(order0, order, x, index, visible, i, shown, inserted, erased);
      }
      assert before[i..] == [entry] + before[i + 1..];
      if entry in visible {
        if index == shown {
          InsertCounts(order, i, x);
          order := Insert(order, i, x);
          inserted := true;
          assert order[i + 1..] == before[i..];
        } else if x == entry {
          EraseCounts(order, i);
          order := Erase(order, i);
          erased := true;
        }
        shown := shown + 1;
      }
      i := i + 1;
    }
    if x in order0 && x in visible { StageEnds(order0, order, x, index, visible, i, shown, inserted, erased); }
    if !inserted {
      InsertCounts(order, |order|, x);
      assert Insert(order, |order|, x) == order + [x];
      order := order + [x];
    }
  }
}
