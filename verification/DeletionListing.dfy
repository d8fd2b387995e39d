/**
  What the editor lists when items are deleted (src/dlgTriggerEditor.cpp), and
  that undo restores the forest (src/EditorDeleteItemCommand.cpp, undo).
*/
module DeletionListing {
  import opened Common
  import opened Forests
  import opened Renaming
  import opened EditorCommands
  import opened RestoreOrder
  import opened EditorDelete
  import opened DeletionRounds
  import opened DeletionOrder

  /** What is recorded of item `x` of `f`. */
  function Record(f: Forest<Item>, x: int): Info
    requires x in Ids(f)
  {
    Info(x, Sub(f, x).item.name, ParentOf(f, x, TOP), PositionOf(f, x), Erase(Sub(f, x)))
  }

  /** The document once the items of `list` are rebuilt, last to first. */
  function Regrown(d: Doc, list: seq<Info>): Doc {
    if list == [] then d
    else
      var g, x := Regrown(d, list[1..]), list[0];
      if !Single(x.snapshot) then g
      else
        var t := Freshen(x.snapshot, g.maxId);
        Doc(Insert(g.forest, x.parent, x.pos, t), g.maxId + Size(t))
  }

  lemma {:induction false} GrownIsRegrown(d: Doc, items: seq<Info>, k: nat)
    requires k <= |items|
    ensures Grown(d, items, k) == Regrown(d, Roots(items, items[k..]))
    decreases |items| - k
  {
    if k < |items| {
      GrownIsRegrown(d, items, k + 1);
      assert items[k..][1..] == items[k + 1..];
      var rest := Roots(items, items[k + 1..]);
      assert ([items[k]] + rest)[1..] == rest && [] + rest == rest;
    }
  }

  // ---------------------------------------------------------------- removing one of two unrelated items

  lemma {:induction false} SubIn<T>(f: Forest<T>, x: int)
    requires Wf(f)
    ensures forall y :: y in Ids(Sub(f, x)) ==> y in Ids(f)
  {
    RemoveIds(f, x);
    SubAbsent(f, x);
  }

  /** An item strictly inside the tree of `x` has its parent in that tree too. */
  lemma {:induction false} ParentInside<T>(f: Forest<T>, x: int, y: int, above: int)
    requires Wf(f) && x in Ids(f) && y in Ids(Sub(f, x)) && y != x
    ensures ParentOf(f, y, above) in Ids(Sub(f, x))
  {
    if f.id == x {
      ParentIn(f.kids, y, x);
    } else if x in Ids(f.kids) {
      SubIn(f.kids, x);
      ParentInside(f.kids, x, y, f.id);
    } else {
      SubIn(f.rest, x);
      ParentInside(f.rest, x, y, above);
    }
  }

  /** Neither item's parent lies in the other's tree. */
  ghost predicate Unrelated<T>(f: Forest<T>, x: int, y: int, above: int) {
    && x in Ids(f) && y in Ids(f) && x != y
    && ParentOf(f, x, above) !in Ids(Sub(f, y))
    && ParentOf(f, y, above) !in Ids(Sub(f, x))
  }

  lemma {:induction false} RemoveUnrelated<T>(f: Forest<T>, x: int, y: int, above: int)
    requires Wf(f) && above !in Ids(f) && Unrelated(f, x, y, above)
    ensures y in Ids(Remove(f, x)) && Sub(Remove(f, x), y) == Sub(f, y)
    ensures ParentOf(Remove(f, x), y, above) == ParentOf(f, y, above)
  {
    if f.id == x {
      if y in Ids(f.kids) { ParentInside(f, x, y, above); }
    } else if f.id == y {
      if x in Ids(f.kids) { ParentInside(f, y, x, above); }
      RemoveAbsent(f.kids, x);
      RemoveIds(f.rest, x);
    } else if x in Ids(f.kids) {
      RemoveIds(f.kids, x);
      RemoveAbsent(f.rest, x);
      if y in Ids(f.kids) { RemoveUnrelated(f.kids, x, y, f.id); }
    } else {
      RemoveIds(f.rest, x);
      RemoveAbsent(f.kids, x);
      if y in Ids(f.rest) { RemoveUnrelated(f.rest, x, y, above); }
    }
  }

  /** Distinct items of the forest, none with its parent in another's tree. */
  ghost predicate Apart(f: Forest<Item>, xs: seq<int>) {
    && Distinct(xs)
    && (forall k :: 0 <= k < |xs| ==> xs[k] in Ids(f))
    && (forall j, k :: 0 <= j < |xs| && 0 <= k < |xs| ==> ParentOf(f, xs[k], TOP) !in Ids(Sub(f, xs[j])))
  }

  lemma {:induction false} ApartPair(f: Forest<Item>, xs: seq<int>, j: nat, k: nat)
    requires Apart(f, xs) && j < |xs| && k < |xs| && j != k
    ensures Unrelated(f, xs[j], xs[k], TOP)
  {
  }

  /** Removing one leaves the others as they were. */
  lemma {:induction false} ApartRemove(f: Forest<Item>, xs: seq<int>)
    requires Wf(f) && TOP !in Ids(f) && Apart(f, xs) && xs != []
    ensures Wf(Remove(f, xs[0])) && TOP !in Ids(Remove(f, xs[0])) && Apart(Remove(f, xs[0]), xs[1..])
  {
    var g, ys := Remove(f, xs[0]), xs[1..];
    RemoveIds(f, xs[0]);
    forall k | 0 <= k < |ys| ensures ys[k] == xs[k + 1] && ys[k] in Ids(g) && Sub(g, ys[k]) == Sub(f, xs[k + 1])
                                  && ParentOf(g, ys[k], TOP) == ParentOf(f, xs[k + 1], TOP)
    {
      ApartPair(f, xs, 0, k + 1);
      RemoveUnrelated(f, xs[0], xs[k + 1], TOP);
    }
  }

  /** The entries recorded one by one, as each item goes. */
  function Recorded(f: Forest<Item>, xs: seq<int>): (r: seq<Info>)
    decreases |xs|
    ensures |r| <= |xs|
  {
    if xs == [] then []
    else if xs[0] !in Ids(f) then Recorded(f, xs[1..])
    else [Record(f, xs[0])] + Recorded(Remove(f, xs[0]), xs[1..])
  }

  /** The ids the restored trees had, in the order in which they are rebuilt. */
  function Olds(f: Forest<Item>, xs: seq<int>): seq<int>
    decreases |xs|
  {
    if xs == [] then [] else Olds(Remove(f, xs[0]), xs[1..]) + Order(Sub(f, xs[0]))
  }

  // ---------------------------------------------------------------- undo restores the forest

  lemma {:induction false} OldsFacts(f: Forest<Item>, xs: seq<int>)
    requires Wf(f) && TOP !in Ids(f) && Apart(f, xs)
    ensures Distinct(Olds(f, xs)) && Wf(Prune(f, xs))
    ensures forall x :: x in Olds(f, xs) ==> x in Ids(f) && x !in Ids(Prune(f, xs))
    ensures forall x :: x in Ids(f) ==> x in Olds(f, xs) || x in Ids(Prune(f, xs))
    ensures forall x :: x in Ids(Prune(f, xs)) ==> x in Ids(f)
    decreases |xs|
  {
    if xs != [] {
      var g, t := Remove(f, xs[0]), Sub(f, xs[0]);
      ApartRemove(f, xs);
      OldsFacts(g, xs[1..]);
      RemoveIds(f, xs[0]);
      OrderDistinct(t);
      OrderIds(t);
      DistinctConcat(Olds(g, xs[1..]), Order(t));
    }
  }

  lemma {:induction false} SameRenaming<T>(f: Forest<T>, p: seq<(int, int)>, q: seq<(int, int)>)
    requires forall x :: x in Ids(f) ==> Subst(x, p) == Subst(x, q)
    ensures Rename(f, p) == Rename(f, q)
  {
    if f.Cons? {
      assert f.id in Ids(f);
      SameRenaming(f.kids, p, q);
      SameRenaming(f.rest, p, q);
    }
  }

  lemma {:induction false} DistinctParts(a: seq<int>, b: seq<int>)
    requires Distinct(a + b)
    ensures Distinct(a) && Distinct(b) && forall x :: x in a ==> x !in b
  {
    forall i | 0 <= i < |a| ensures a[i] == (a + b)[i] {}
    forall j | 0 <= j < |b| ensures b[j] == (a + b)[|a| + j] {}
    forall i, j | 0 <= i < |a| && 0 <= j < |b| ensures a[i] != b[j] {
      assert (a + b)[i] != (a + b)[|a| + j];
    }
  }

  /** Pairs for nodes that are not there make no difference. */
  lemma {:induction false} MorePairs(f: Forest<Item>, olds: seq<int>, more: seq<int>, n: nat)
    requires Distinct(olds + more) && (forall x :: x in olds + more ==> x <= n)
    requires forall x :: x in more ==> x !in Ids(f)
    ensures Rename(f, Pairs(olds, n)) == Rename(f, Pairs(olds + more, n))
    ensures forall x :: x in olds ==> Subst(x, Pairs(olds, n)) == Subst(x, Pairs(olds + more, n))
  {
    var all := olds + more;
    assert forall i :: 0 <= i < |olds| ==> all[i] == olds[i];
    assert forall x :: x in olds ==> x in all;
    Simultaneous(olds, n);
    Simultaneous(all, n);
    forall x | x !in more ensures Subst(x, Pairs(olds, n)) == Subst(x, Pairs(all, n)) {
      if x in olds {
        var i :| 0 <= i < |olds| && olds[i] == x;
        assert all[i] == x;
      }
    }
    DistinctParts(olds, more);
    SameRenaming(f, Pairs(olds, n), Pairs(all, n));
  }

  lemma {:induction false} TouchedAfter(olds: seq<int>, more: seq<int>, n: nat, i: nat)
    requires Distinct(olds + more) && (forall x :: x in olds + more ==> x <= n) && i < |more|
    ensures Subst(more[i], Pairs(olds + more, n)) == n + |olds| + 1 + i
  {
    assert (olds + more)[|olds| + i] == more[i];
    Touched(olds + more, n, |olds| + i);
  }

  /** The tree listed last is renamed to the ids after those of the others. */
  lemma {:induction false} LastTree(t: Forest<Item>, olds: seq<int>, n: nat)
    requires Distinct(olds + Order(t)) && forall x :: x in olds + Order(t) ==> x <= n
    ensures Rename(t, Pairs(olds + Order(t), n)) == Freshen(t, n + |olds|)
  {
    var pairs := Pairs(olds + Order(t), n);
    forall i | 0 <= i < Size(t) ensures Subst(Order(t)[i], pairs) == n + |olds| + 1 + i {
      TouchedAfter(olds, Order(t), n, i);
    }
    assert Consecutive(t, pairs, n + |olds|);
    RenameIsFreshen(t, pairs, n + |olds|);
  }

  ghost predicate Fresh(f: Forest<Item>, xs: seq<int>, n: nat) {
    Wf(f) && Bounded(f, n) && Apart(f, xs)
  }

  lemma {:induction false} FreshRemove(f: Forest<Item>, xs: seq<int>, n: nat)
    requires Fresh(f, xs, n) && xs != []
    ensures Fresh(Remove(f, xs[0]), xs[1..], n) && TOP !in Ids(f)
  {
    ApartRemove(f, xs);
    RemoveIds(f, xs[0]);
  }

  /** What undo renames the deleted trees to. */
  function Renamings(f: Forest<Item>, xs: seq<int>, n: nat): seq<(int, int)> {
    Pairs(Olds(f, xs), n)
  }

  lemma {:induction false} ParentKept(f: Forest<Item>, xs: seq<int>, k: nat)
    requires Wf(f) && TOP !in Ids(f) && Apart(f, xs) && k < |xs|
    ensures ParentOf(f, xs[k], TOP) !in Olds(f, xs)
  {
    NotAmongOlds(f, xs, ParentOf(f, xs[k], TOP));
  }

  lemma {:induction false} NotAmongOlds(f: Forest<Item>, xs: seq<int>, p: int)
    requires Wf(f) && TOP !in Ids(f) && Apart(f, xs)
    requires forall j :: 0 <= j < |xs| ==> p !in Ids(Sub(f, xs[j]))
    ensures p !in Olds(f, xs)
    decreases |xs|
  {
    if xs != [] {
      var g, ys := Remove(f, xs[0]), xs[1..];
      ApartRemove(f, xs);
      OrderIds(Sub(f, xs[0]));
      forall j | 0 <= j < |ys| ensures p !in Ids(Sub(g, ys[j])) {
        ApartPair(f, xs, 0, j + 1);
        RemoveUnrelated(f, xs[0], xs[j + 1], TOP);
      }
      NotAmongOlds(g, ys, p);
    }
  }

  /** The old ids of the trees are distinct ids of the forest, all up to `n`. */
  lemma {:induction false} OldsBounded(f: Forest<Item>, xs: seq<int>, n: nat)
    requires Fresh(f, xs, n)
    ensures TOP !in Ids(f) && Distinct(Olds(f, xs)) && (forall x :: x in Olds(f, xs) ==> x <= n)
  {
    OldsFacts(f, xs);
  }

  lemma {:induction false} TreeRenamed(f: Forest<Item>, xs: seq<int>, n: nat)
    requires Fresh(f, xs, n) && xs != []
    ensures Rename(Sub(f, xs[0]), Renamings(f, xs, n))
              == Freshen(Erase(Sub(f, xs[0])), n + |Olds(Remove(f, xs[0]), xs[1..])|)
  {
    OldsBounded(f, xs, n);
    LastTree(Sub(f, xs[0]), Olds(Remove(f, xs[0]), xs[1..]), n);
    FreshenErased(Sub(f, xs[0]), n + |Olds(Remove(f, xs[0]), xs[1..])|);
  }

  lemma {:induction false} RestRenamed(f: Forest<Item>, xs: seq<int>, n: nat)
    requires Fresh(f, xs, n) && xs != []
    ensures Rename(Remove(f, xs[0]), Renamings(Remove(f, xs[0]), xs[1..], n))
              == Rename(Remove(f, xs[0]), Renamings(f, xs, n))
    ensures forall y :: y in Olds(Remove(f, xs[0]), xs[1..]) ==>
              Subst(y, Renamings(Remove(f, xs[0]), xs[1..], n)) == Subst(y, Renamings(f, xs, n))
  {
    OldsBounded(f, xs, n);
    RemoveIds(f, xs[0]);
    OrderIds(Sub(f, xs[0]));
    MorePairs(Remove(f, xs[0]), Olds(Remove(f, xs[0]), xs[1..]), Order(Sub(f, xs[0])), n);
  }

  lemma {:induction false} OneMore(f: Forest<Item>, xs: seq<int>, n: nat)
    requires Fresh(f, xs, n) && xs != []
    ensures Single(Sub(f, xs[0])) && Subst(ParentOf(f, xs[0], TOP), Renamings(f, xs, n)) == ParentOf(f, xs[0], TOP)
    ensures Rename(f, Renamings(f, xs, n))
         == Insert(Rename(Remove(f, xs[0]), Renamings(f, xs, n)), ParentOf(f, xs[0], TOP), PositionOf(f, xs[0]),
                   Rename(Sub(f, xs[0]), Renamings(f, xs, n)))
  {
    var x, pairs := xs[0], Renamings(f, xs, n);
    var parent := ParentOf(f, x, TOP);
    OldsBounded(f, xs, n);
    FreshRemove(f, xs, n);
    ParentIn(f, x, TOP);
    ParentKept(f, xs, 0);
    Untouched(parent, Olds(f, xs), n);
    Simultaneous(Olds(f, xs), n);
    InsertRemove(f, x, TOP);
    RenameInsert(Remove(f, x), parent, PositionOf(f, x), Sub(f, x), pairs, n);
  }

  lemma {:induction false} RecordedTail(f: Forest<Item>, xs: seq<int>)
    requires xs != [] && xs[0] in Ids(f)
    ensures Recorded(f, xs) == [Record(f, xs[0])] + Recorded(Remove(f, xs[0]), xs[1..])
    ensures Recorded(f, xs)[1..] == Recorded(Remove(f, xs[0]), xs[1..])
  {
  }

  lemma {:induction false} RegrownStep(d: Doc, x: Info, rest: seq<Info>)
    requires Single(x.snapshot)
    ensures var g := Regrown(d, rest); var t := Freshen(x.snapshot, g.maxId);
            Single(t) && Regrown(d, [x] + rest) == Doc(Insert(g.forest, x.parent, x.pos, t), g.maxId + Size(t))
  {
    assert ([x] + rest)[1..] == rest;
  }

  /** Rebuilding the first deleted tree, once the others are back. */
  lemma {:induction false} RebuiltTree(f: Forest<Item>, xs: seq<int>, n: nat)
    requires Fresh(f, xs, n) && xs != []
    ensures var g, x := Remove(f, xs[0]), xs[0]; var n1 := n + |Olds(g, xs[1..])|;
            var t := Freshen(Erase(Sub(f, x)), n1);
            && Single(t) && n1 + Size(t) == n + |Olds(f, xs)|
            && Insert(Rename(g, Renamings(g, xs[1..], n)), ParentOf(f, x, TOP), PositionOf(f, x), t)
                == Rename(f, Renamings(f, xs, n))
  {
    var t := Sub(f, xs[0]);
    RestRenamed(f, xs, n);
    OneMore(f, xs, n);
    TreeRenamed(f, xs, n);
    EraseFacts(t);
    FreshenShape(Erase(t), n + |Olds(Remove(f, xs[0]), xs[1..])|);
  }

  lemma {:induction false} RestoredOne(f: Forest<Item>, xs: seq<int>, n: nat, d: Doc, list: seq<Info>, rest: seq<Info>)
    requires Fresh(f, xs, n) && xs != [] && xs[0] in Ids(f) && list == [Record(f, xs[0])] + rest
    requires var g, ys := Remove(f, xs[0]), xs[1..];
             Regrown(d, rest) == Doc(Rename(g, Renamings(g, ys, n)), n + |Olds(g, ys)|)
    ensures Regrown(d, list) == Doc(Rename(f, Renamings(f, xs, n)), n + |Olds(f, xs)|)
  {
    RebuiltTree(f, xs, n);
    var x := Record(f, xs[0]);
    assert Single(x.snapshot) by { FreshRemove(f, xs, n); EraseFacts(Sub(f, xs[0])); }
    RegrownStep(d, x, rest);
  }

  /**
    With positions noted as each item goes, undo gives the original forest, with
    the deleted trees under new ids and nothing else changed.
  */
  lemma {:induction false} UndoRestores(f: Forest<Item>, xs: seq<int>, n: nat)
    requires Fresh(f, xs, n)
    ensures Regrown(Doc(Prune(f, xs), n), Recorded(f, xs)) == Doc(Rename(f, Renamings(f, xs, n)), n + |Olds(f, xs)|)
    decreases |xs|
  {
    if xs == [] {
      Simultaneous([], n);
      RenameUntouched(f, Renamings(f, xs, n));
    } else {
      FreshRemove(f, xs, n);
      UndoRestores(Remove(f, xs[0]), xs[1..], n);
      RecordedTail(f, xs);
      RestoredOne(f, xs, n, Doc(Prune(f, xs), n), Recorded(f, xs), Recorded(Remove(f, xs[0]), xs[1..]));
    }
  }

  /** That renaming touches only the deleted trees, merges no two ids and leaves shape, order and contents alone. */
  lemma {:induction false} RenamingFacts(f: Forest<Item>, xs: seq<int>, n: nat)
    requires Fresh(f, xs, n)
    ensures Erase(Rename(f, Renamings(f, xs, n))) == Erase(f) && Injective(Renamings(f, xs, n), n)
    ensures forall x :: x in Ids(Prune(f, xs)) ==> Subst(x, Renamings(f, xs, n)) == x
    ensures Rename(Prune(f, xs), Renamings(f, xs, n)) == Prune(f, xs)
  {
    OldsBounded(f, xs, n);
    OldsFacts(f, xs);
    Simultaneous(Olds(f, xs), n);
    RenameErase(f, Renamings(f, xs, n));
    RenameUntouched(Prune(f, xs), Renamings(f, xs, n));
  }

  // ---------------------------------------------------------------- what is recorded, and which entry gets which id

  // ---------------------------------------------------------------- the editor's listing

  /** Each selected item with everything below it, in pre-order: an item may be listed more than once. */
  function ListedIds(f: Forest<Item>, xs: seq<int>): seq<int> {
    if xs == [] then [] else Order(Sub(f, xs[0])) + ListedIds(f, xs[1..])
  }

  predicate AllIn(f: Forest<Item>, ids: seq<int>) {
    forall k :: 0 <= k < |ids| ==> ids[k] in Ids(f)
  }

  /** The entries as the editor makes them: all of them before the first item goes. */
  function RecordEach(f: Forest<Item>, ids: seq<int>): (r: seq<Info>)
    requires AllIn(f, ids)
    ensures |r| == |ids| && forall k :: 0 <= k < |r| ==> r[k] == Record(f, ids[k])
  {
    seq(|ids|, k requires 0 <= k < |ids| => Record(f, ids[k]))
  }

  /** Distinct items of the forest, possibly one inside another. */
  ghost predicate Selected(f: Forest<Item>, xs: seq<int>) {
    Distinct(xs) && AllIn(f, xs)
  }

  lemma {:induction false} ListedFrom(f: Forest<Item>, xs: seq<int>, x: int) returns (k: nat)
    requires x in ListedIds(f, xs)
    ensures k < |xs| && x in Ids(Sub(f, xs[k]))
  {
    OrderIds(Sub(f, xs[0]));
    if x in Order(Sub(f, xs[0])) {
      k := 0;
    } else {
      k := ListedFrom(f, xs[1..], x);
      k := k + 1;
    }
  }

  lemma {:induction false} ListedIn(f: Forest<Item>, xs: seq<int>, k: nat, x: int)
    requires k < |xs| && x in Ids(Sub(f, xs[k]))
    ensures x in ListedIds(f, xs)
  {
    OrderIds(Sub(f, xs[0]));
    if k > 0 { ListedIn(f, xs[1..], k - 1, x); }
  }

  lemma {:induction false} SelectedTail(f: Forest<Item>, xs: seq<int>)
    requires Selected(f, xs) && xs != []
    ensures Selected(f, xs[1..])
  {
    forall k | 0 <= k < |xs[1..]| ensures xs[1..][k] == xs[k + 1] {}
  }

  lemma {:induction false} ListedOf(f: Forest<Item>, xs: seq<int>)
    requires Wf(f)
    ensures AllIn(f, ListedIds(f, xs))
  {
    forall k | 0 <= k < |ListedIds(f, xs)| ensures ListedIds(f, xs)[k] in Ids(f) {
      var m := ListedFrom(f, xs, ListedIds(f, xs)[k]);
      SubIn(f, xs[m]);
    }
  }

  /** The entries for a selection. */
  function Entries(f: Forest<Item>, xs: seq<int>): (r: seq<Info>)
    requires Wf(f)
    ensures |r| == |ListedIds(f, xs)|
  {
    ListedOf(f, xs);
    RecordEach(f, ListedIds(f, xs))
  }

  lemma {:induction false} EntriesAt(f: Forest<Item>, xs: seq<int>, k: nat)
    requires Wf(f) && k < |Entries(f, xs)|
    ensures ListedIds(f, xs)[k] in Ids(f) && Entries(f, xs)[k] == Record(f, ListedIds(f, xs)[k])
  {
    ListedOf(f, xs);
  }

  lemma {:induction false} EntriesDeleted(f: Forest<Item>, xs: seq<int>, p: int)
    requires Wf(f)
    ensures Deleted(Entries(f, xs), p) <==> p in ListedIds(f, xs)
  {
    if p in ListedIds(f, xs) {
      var k :| 0 <= k < |ListedIds(f, xs)| && ListedIds(f, xs)[k] == p;
      EntriesAt(f, xs, k);
    }
    if Deleted(Entries(f, xs), p) {
      var k :| 0 <= k < |Entries(f, xs)| && Entries(f, xs)[k].item == p;
      EntriesAt(f, xs, k);
    }
  }

  lemma {:induction false} SubParts(f: Forest<Item>, y: int)
    requires Wf(f) && f.Cons?
    ensures f.id == y ==> Ids(Sub(f, y)) == {y} + Ids(f.kids)
    ensures f.id != y ==> Ids(Sub(f, y)) == Ids(Sub(f.kids, y)) + Ids(Sub(f.rest, y))
    ensures Ids(Sub(f.kids, y)) <= Ids(f.kids) && Ids(Sub(f.rest, y)) <= Ids(f.rest)
  {
    RemoveIds(f.kids, y);
    RemoveIds(f.rest, y);
    SubAbsent(f.kids, y);
    SubAbsent(f.rest, y);
    if f.id == y {
      var t := Sub(f, y);
      assert t.kids == f.kids && t.rest == Nil && Ids(t.rest) == {};
    } else if y in Ids(f.kids) {
      assert Sub(f.rest, y) == Nil && Ids(Sub(f.rest, y)) == {};
    } else {
      assert Sub(f.kids, y) == Nil && Ids(Sub(f.kids, y)) == {};
    }
  }

  lemma {:induction false} RemoveRest(f: Forest<Item>, x: int)
    requires Wf(f)
    ensures Wf(Remove(f, x)) && Ids(Remove(f, x)) == Ids(f) - Ids(Sub(f, x))
  {
    RemoveIds(f, x);
    SubAbsent(f, x);
  }

  /** What a removal leaves of another tree. */
  lemma {:induction false} SubRemoveIds(f: Forest<Item>, x: int, y: int)
    requires Wf(f)
    ensures Ids(Sub(Remove(f, x), y)) == Ids(Sub(f, y)) - Ids(Sub(f, x))
  {
    if f.Cons? {
      SubParts(f, x);
      SubParts(f, y);
      SubAbsent(f.rest, x);
      if f.id != x {
        RemoveRest(f, x);
        RemoveRest(f.kids, x);
        SubParts(Remove(f, x), y);
        SubRemoveIds(f.kids, x, y);
        SubRemoveIds(f.rest, x, y);
      }
    }
  }

  /** What a deletion leaves: the nodes outside every selected tree. */
  lemma {:induction false} PrunedIds(f: Forest<Item>, xs: seq<int>, x: int)
    requires Wf(f)
    ensures Wf(Prune(f, xs)) && (x in Ids(Prune(f, xs)) <==> x in Ids(f) && x !in ListedIds(f, xs))
    decreases |xs|
  {
    if xs != [] {
      var g := Remove(f, xs[0]);
      RemoveIds(f, xs[0]);
      SubAbsent(f, xs[0]);
      PrunedIds(g, xs[1..], x);
      OrderIds(Sub(f, xs[0]));
      if x in Ids(g) {
        if x in ListedIds(g, xs[1..]) {
          var k := ListedFrom(g, xs[1..], x);
          SubRemoveIds(f, xs[0], xs[1..][k]);
          ListedIn(f, xs[1..], k, x);
        }
        if x in ListedIds(f, xs[1..]) {
          var k := ListedFrom(f, xs[1..], x);
          SubRemoveIds(f, xs[0], xs[1..][k]);
          ListedIn(g, xs[1..], k, x);
        }
      }
    }
  }

  lemma {:induction false} TopOfTree(f: Forest<Item>, xs: seq<int>, k: nat, y: int)
    requires Wf(f) && Selected(f, xs) && k < |xs| && y in Ids(Sub(f, xs[k])) && ParentOf(f, y, TOP) !in ListedIds(f, xs)
    ensures y == xs[k]
  {
    if y != xs[k] {
      ParentInside(f, xs[k], y, TOP);
      ListedIn(f, xs, k, ParentOf(f, y, TOP));
    }
  }

  /** An item whose parent is not listed is listed once. */
  lemma {:induction false} ListedOnce(f: Forest<Item>, xs: seq<int>, i: nat, j: nat)
    requires Wf(f) && Selected(f, xs) && i <= j < |ListedIds(f, xs)| && ListedIds(f, xs)[i] == ListedIds(f, xs)[j]
    requires ParentOf(f, ListedIds(f, xs)[i], TOP) !in ListedIds(f, xs)
    ensures i == j
    decreases |xs|
  {
    var a, b, y := Order(Sub(f, xs[0])), ListedIds(f, xs[1..]), ListedIds(f, xs)[i];
    RemoveIds(f, xs[0]);
    OrderDistinct(Sub(f, xs[0]));
    OrderIds(Sub(f, xs[0]));
    SelectedTail(f, xs);
    if i >= |a| {
      ListedOnce(f, xs[1..], i - |a|, j - |a|);
    } else if j >= |a| {
      assert a[i] in a && b[j - |a|] in b;
      TopOfTree(f, xs, 0, y);
      var k := ListedFrom(f, xs[1..], y);
      TopOfTree(f, xs, k + 1, y);
      assert false;
    }
  }

  /** What the editor lists is a listing over what the deletion leaves. */
  lemma {:induction false} EditorListing(f: Forest<Item>, xs: seq<int>, n: nat)
    requires Wf(f) && Bounded(f, n) && Selected(f, xs)
    ensures Listing(Prune(f, xs), n, Entries(f, xs))
  {
    var h, items, ids := Prune(f, xs), Entries(f, xs), ListedIds(f, xs);
    forall x ensures x in Ids(h) <==> x in Ids(f) && x !in ids { PrunedIds(f, xs, x); }
    PrunedIds(f, xs, 0);
    forall i | 0 <= i < |items| ensures Entered(h, n, items, i) {
      EntriesAt(f, xs, i);
      var y := ids[i];
      assert y in ids;
      ParentIn(f, y, TOP);
      EntriesDeleted(f, xs, ParentOf(f, y, TOP));
      RemoveIds(f, y);
      EraseFacts(Sub(f, y));
      if OnBase(h, items[i]) {
        assert ParentOf(f, y, TOP) !in ids by {
          if TOP in ids { var k := ListedFrom(f, xs, TOP); SubIn(f, xs[k]); }
        }
        forall j | 0 <= j < |items| && j != i ensures items[j].item != items[i].item {
          EntriesAt(f, xs, j);
          if ids[i] == ids[j] { if i < j { ListedOnce(f, xs, i, j); } else { ListedOnce(f, xs, j, i); } }
        }
      }
    }
  }

  // ---------------------------------------------------------------- the items rebuilt themselves

  /** Of `xs`, those whose parents are not among `all`. */
  function Outside(f: Forest<Item>, all: seq<int>, xs: seq<int>): (r: seq<int>)
    ensures forall x :: x in r <==> x in xs && ParentOf(f, x, TOP) !in all
  {
    if xs == [] then []
    else
      var r := Outside(f, all, xs[1..]);
      assert xs == [xs[0]] + xs[1..];
      if ParentOf(f, xs[0], TOP) in all then r else [xs[0]] + r
  }

  /** The selected items that lie in no other selected item. */
  function Outer(f: Forest<Item>, xs: seq<int>): (r: seq<int>)
    ensures forall x :: x in r <==> x in xs && ParentOf(f, x, TOP) !in ListedIds(f, xs)
  {
    Outside(f, ListedIds(f, xs), xs)
  }

  lemma {:induction false} OutsideDistinct(f: Forest<Item>, all: seq<int>, xs: seq<int>)
    requires Distinct(xs)
    ensures Distinct(Outside(f, all, xs))
  {
    if xs != [] {
      var r := Outside(f, all, xs[1..]);
      forall i, j | 0 <= i < j < |xs[1..]| ensures xs[1..][i] != xs[1..][j] { assert xs[i + 1] != xs[j + 1]; }
      OutsideDistinct(f, all, xs[1..]);
      forall i | 0 <= i < |r| ensures r[i] != xs[0] {
        assert r[i] in r;
        var j :| 0 <= j < |xs[1..]| && xs[1..][j] == r[i];
        assert xs[0] != xs[j + 1];
      }
    }
  }

  lemma {:induction false} OuterFresh(f: Forest<Item>, xs: seq<int>, n: nat)
    requires Wf(f) && Bounded(f, n) && Selected(f, xs)
    ensures Fresh(f, Outer(f, xs), n)
  {
    var zs := Outer(f, xs);
    OutsideDistinct(f, ListedIds(f, xs), xs);
    forall k | 0 <= k < |zs| ensures zs[k] in Ids(f) && zs[k] in xs && ParentOf(f, zs[k], TOP) !in ListedIds(f, xs) {
      assert zs[k] in zs;
    }
    forall j, k | 0 <= j < |zs| && 0 <= k < |zs| ensures ParentOf(f, zs[k], TOP) !in Ids(Sub(f, zs[j])) {
      assert zs[j] in xs;
      var m :| 0 <= m < |xs| && xs[m] == zs[j];
      if ParentOf(f, zs[k], TOP) in Ids(Sub(f, xs[m])) { ListedIn(f, xs, m, ParentOf(f, zs[k], TOP)); }
    }
  }

  lemma {:induction false} NoRoots(items: seq<Info>, s: seq<Info>)
    requires forall i :: 0 <= i < |s| ==> !IsRoot(items, s[i])
    ensures Roots(items, s) == []
  {
    if s != [] { NoRoots(items, s[1..]); }
  }

  /** Of a listed tree at most its top is rebuilt itself. */
  lemma {:induction false} TreeRoots(f: Forest<Item>, xs: seq<int>, k: nat)
    requires Wf(f) && TOP !in Ids(f) && Selected(f, xs) && k < |xs|
    ensures AllIn(f, Order(Sub(f, xs[k])))
    ensures Roots(Entries(f, xs), RecordEach(f, Order(Sub(f, xs[k]))))
         == if ParentOf(f, xs[k], TOP) in ListedIds(f, xs) then [] else [Record(f, xs[k])]
  {
    var items, x, ids := Entries(f, xs), xs[k], Order(Sub(f, xs[k]));
    OrderIds(Sub(f, x));
    SubIn(f, x);
    RemoveIds(f, x);
    OrderDistinct(Sub(f, x));
    forall i | 0 <= i < |ids| ensures ids[i] in Ids(f) { assert ids[i] in ids; }
    var s := RecordEach(f, ids);
    EntriesDeleted(f, xs, ParentOf(f, x, TOP));
    NotListed(f, xs, TOP);
    forall i | 0 <= i < |s[1..]| ensures !IsRoot(items, s[1..][i]) {
      assert ids[i + 1] != ids[0] && ids[i + 1] in ids;
      ParentInside(f, x, ids[i + 1], TOP);
      SubIn(f, x);
      ListedIn(f, xs, k, ParentOf(f, ids[i + 1], TOP));
      EntriesDeleted(f, xs, ParentOf(f, ids[i + 1], TOP));
    }
    NoRoots(items, s[1..]);
    assert s[0] == Record(f, x);
  }

  lemma {:induction false} NotListed(f: Forest<Item>, xs: seq<int>, x: int)
    requires Wf(f) && x !in Ids(f)
    ensures x !in ListedIds(f, xs)
  {
    if x in ListedIds(f, xs) {
      var k := ListedFrom(f, xs, x);
      SubIn(f, xs[k]);
    }
  }

  lemma {:induction false} RecordConcat(f: Forest<Item>, a: seq<int>, b: seq<int>)
    requires AllIn(f, a) && AllIn(f, b)
    ensures AllIn(f, a + b) && RecordEach(f, a + b) == RecordEach(f, a) + RecordEach(f, b)
  {
  }

  lemma {:induction false} RootsJoin(f: Forest<Item>, items: seq<Info>, tree: seq<int>, rest: seq<int>, x: int,
                                     inside: bool,
                                     out: seq<int>)
    requires AllIn(f, tree) && AllIn(f, rest) && AllIn(f, out) && x in Ids(f)
    requires Roots(items, RecordEach(f, tree)) == if inside then [] else [Record(f, x)]
    requires Roots(items, RecordEach(f, rest)) == RecordEach(f, out)
    ensures var all := if inside then out else [x] + out;
            && AllIn(f, all) && AllIn(f, tree + rest)
            && Roots(items, RecordEach(f, tree + rest)) == RecordEach(f, all)
  {
    RecordConcat(f, tree, rest);
    RootsConcat(items, RecordEach(f, tree), RecordEach(f, rest));
    RecordConcat(f, [x], out);
    assert RecordEach(f, [x]) == [Record(f, x)];
  }

  lemma {:induction false} ListedStep(f: Forest<Item>, all: seq<int>, xs: seq<int>, k: nat)
    requires k < |xs|
    ensures ListedIds(f, xs[k..]) == Order(Sub(f, xs[k])) + ListedIds(f, xs[k + 1..])
    ensures Outside(f, all, xs[k..])
         == if ParentOf(f, xs[k], TOP) in all
             then Outside(f, all, xs[k + 1..]) else [xs[k]] + Outside(f, all, xs[k + 1..])
  {
    assert xs[k..][1..] == xs[k + 1..] && xs[k..][0] == xs[k];
  }

  lemma {:induction false} RootsFrom(f: Forest<Item>, xs: seq<int>, k: nat, ids: seq<int>, out: seq<int>)
    requires Wf(f) && TOP !in Ids(f) && Selected(f, xs) && k <= |xs|
    requires ids == ListedIds(f, xs[k..]) && out == Outside(f, ListedIds(f, xs), xs[k..])
    ensures AllIn(f, ids) && AllIn(f, out) && Roots(Entries(f, xs), RecordEach(f, ids)) == RecordEach(f, out)
    decreases |xs| - k
  {
    if k < |xs| {
      var all := ListedIds(f, xs);
      var rest, out' := ListedIds(f, xs[k + 1..]), Outside(f, all, xs[k + 1..]);
      ListedStep(f, all, xs, k);
      RootsFrom(f, xs, k + 1, rest, out');
      TreeRoots(f, xs, k);
      RootsJoin(f, Entries(f, xs), Order(Sub(f, xs[k])), rest, xs[k], ParentOf(f, xs[k], TOP) in all, out');
    }
  }

  /** The entries undo handles themselves are those of the outermost selected items. */
  lemma {:induction false} RootsOfListing(f: Forest<Item>, xs: seq<int>)
    requires Wf(f) && TOP !in Ids(f) && Selected(f, xs)
    ensures AllIn(f, Outer(f, xs)) && Roots(Entries(f, xs), Entries(f, xs)) == RecordEach(f, Outer(f, xs))
  {
    assert xs[0..] == xs;
    RootsFrom(f, xs, 0, ListedIds(f, xs), Outer(f, xs));
  }

  // ---------------------------------------------------------------- one selected item inside another

  lemma {:induction false} ChildInside<T>(f: Forest<T>, z: int, y: int, above: int)
    requires Wf(f) && above !in Ids(f) && y in Ids(f) && z in Ids(f) && ParentOf(f, y, above) in Ids(Sub(f, z))
    ensures y in Ids(Sub(f, z)) && y != z
  {
    ParentIn(f.kids, y, f.id);
    ParentIn(f.rest, y, above);
    SubIn(f, z);
    SubIn(f.kids, z);
    SubIn(f.rest, z);
    if f.id != z {
      if z in Ids(f.kids) {
        if y in Ids(f.kids) { ChildInside(f.kids, z, y, f.id); }
      } else if y in Ids(f.rest) && y !in Ids(f.kids) {
        ChildInside(f.rest, z, y, above);
      }
    }
  }

  lemma {:induction false} SubSub<T>(f: Forest<T>, z: int, y: int)
    requires Wf(f) && y in Ids(Sub(f, z))
    ensures Sub(Sub(f, z), y) == Sub(f, y)
  {
    SubIn(f, z);
    if f.id != z {
      SubIn(f.kids, z);
      SubIn(f.rest, z);
      if z in Ids(f.kids) { SubSub(f.kids, z, y); } else { SubSub(f.rest, z, y); }
    }
  }

  lemma {:induction false} SubSize<T>(f: Forest<T>, y: int)
    ensures Size(Sub(f, y)) <= Size(f)
  {
    if f.Cons? {
      SubSize(f.kids, y);
      SubSize(f.rest, y);
    }
  }

  /** A node inside a tree brings everything below it along. */
  lemma {:induction false} TreeInside(f: Forest<Item>, z: int, y: int)
    requires Wf(f) && z in Ids(f) && y in Ids(Sub(f, z)) && y != z
    ensures Size(Sub(f, y)) < Size(Sub(f, z)) && forall x :: x in Ids(Sub(f, y)) ==> x in Ids(Sub(f, z))
  {
    RemoveIds(f, z);
    SubSub(f, z, y);
    SubIn(Sub(f, z), y);
    SubSize(Sub(f, z).kids, y);
  }

  /** Every selected item lies in an outermost one. */
  lemma {:induction false} OuterAbove(f: Forest<Item>, xs: seq<int>, k: nat) returns (z: int)
    requires Wf(f) && TOP !in Ids(f) && Selected(f, xs) && k < |xs|
    ensures z in Outer(f, xs) && forall x :: x in Ids(Sub(f, xs[k])) ==> x in Ids(Sub(f, z))
    decreases Size(f) - Size(Sub(f, xs[k]))
  {
    z := xs[k];
    var p := ParentOf(f, z, TOP);
    if p in ListedIds(f, xs) {
      var m := ListedFrom(f, xs, p);
      ChildInside(f, xs[m], z, TOP);
      TreeInside(f, xs[m], z);
      SubSize(f, xs[m]);
      z := OuterAbove(f, xs, m);
    }
  }

  lemma {:induction false} SameListed(f: Forest<Item>, xs: seq<int>, x: int)
    requires Wf(f) && TOP !in Ids(f) && Selected(f, xs)
    ensures x in ListedIds(f, xs) <==> x in ListedIds(f, Outer(f, xs))
  {
    var zs := Outer(f, xs);
    if x in ListedIds(f, xs) {
      var k := ListedFrom(f, xs, x);
      var z := OuterAbove(f, xs, k);
      var m :| 0 <= m < |zs| && zs[m] == z;
      ListedIn(f, zs, m, x);
    }
    if x in ListedIds(f, zs) {
      var m := ListedFrom(f, zs, x);
      assert zs[m] in zs;
      var k :| 0 <= k < |xs| && xs[k] == zs[m];
      ListedIn(f, xs, k, x);
    }
  }

  /** The nodes of `keep`, where they hang. */
  function Restrict<T>(f: Forest<T>, keep: set<int>): Forest<T> {
    match f
    case Nil => Nil
    case Cons(id, item, kids, rest) =>
      if id in keep then Cons(id, item, Restrict(kids, keep), Restrict(rest, keep)) else Restrict(rest, keep)
  }

  lemma {:induction false} RestrictSelf<T>(f: Forest<T>, keep: set<int>)
    requires Ids(f) <= keep
    ensures Restrict(f, keep) == f
  {
    if f.Cons? {
      RestrictSelf(f.kids, keep);
      RestrictSelf(f.rest, keep);
    }
  }

  lemma {:induction false} RestrictRemove<T>(f: Forest<T>, x: int, keep: set<int>)
    requires Wf(f) && x !in keep
    ensures Restrict(Remove(f, x), keep) == Restrict(f, keep)
  {
    if f.Cons? && f.id != x {
      RestrictRemove(f.kids, x, keep);
      RestrictRemove(f.rest, x, keep);
    }
  }

  lemma {:induction false} RestrictPrune(f: Forest<Item>, xs: seq<int>, keep: set<int>)
    requires Wf(f) && keep == Ids(Prune(f, xs)) && forall k :: 0 <= k < |xs| ==> xs[k] !in keep
    ensures Prune(f, xs) == Restrict(f, keep)
    decreases |xs|
  {
    if xs == [] {
      RestrictSelf(f, keep);
    } else {
      RemoveIds(f, xs[0]);
      RestrictPrune(Remove(f, xs[0]), xs[1..], keep);
      RestrictRemove(f, xs[0], keep);
    }
  }

  lemma {:induction false} PrunedRestrict(f: Forest<Item>, xs: seq<int>)
    requires Wf(f) && AllIn(f, xs)
    ensures Prune(f, xs) == Restrict(f, Ids(Prune(f, xs)))
  {
    forall k | 0 <= k < |xs| ensures xs[k] !in Ids(Prune(f, xs)) {
      RemoveIds(f, xs[k]);
      ListedIn(f, xs, k, xs[k]);
      PrunedIds(f, xs, xs[k]);
    }
    RestrictPrune(f, xs, Ids(Prune(f, xs)));
  }

  /** Deleting the outermost selected items deletes all of them, in whatever order they are deleted. */
  lemma {:induction false} OuterPrunes(f: Forest<Item>, xs: seq<int>)
    requires Wf(f) && TOP !in Ids(f) && Selected(f, xs)
    ensures Prune(f, xs) == Prune(f, Outer(f, xs))
  {
    var zs := Outer(f, xs);
    forall k | 0 <= k < |zs| ensures zs[k] in Ids(f) {
      assert zs[k] in zs;
      var m :| 0 <= m < |xs| && xs[m] == zs[k];
    }
    forall x ensures x in Ids(Prune(f, xs)) <==> x in Ids(Prune(f, zs)) {
      PrunedIds(f, xs, x);
      PrunedIds(f, zs, x);
      SameListed(f, xs, x);
    }
    PrunedRestrict(f, xs);
    PrunedRestrict(f, zs);
    assert Ids(Prune(f, xs)) == Ids(Prune(f, zs));
  }

  // ---------------------------------------------------------------- deleting in the editor, undo and redo

  /** Undoing a deletion made in the editor, in an order the entries may be sorted into, and the stack's walk. */
  function EditorUndo(f: Forest<Item>, xs: seq<int>, n: nat, order: seq<Info>): (u: Undoing)
    requires Wf(f)
  {
    var u := Restored(Undoing(Doc(Prune(f, xs), n), Entries(f, xs), []), order, order);
    u.(items := Remapped(u.items, u.changes))
  }

  lemma {:induction false} EditorUndoIs(f: Forest<Item>, xs: seq<int>, n: nat, order: seq<Info>)
    requires Wf(f) && Bounded(f, n) && Selected(f, xs) && Ordered(Entries(f, xs), order)
    ensures var d := Doc(Prune(f, xs), n); var u := EditorUndo(f, xs, n, order);
            && AllIn(f, Outer(f, xs)) && u.doc == Grown(d, Entries(f, xs), 0)
            && u.doc == Regrown(Doc(Prune(f, Outer(f, xs)), n), RecordEach(f, Outer(f, xs)))
            && u.items == RoundItems(d, Entries(f, xs))
  {
    var items := Entries(f, xs);
    EditorListing(f, xs, n);
    AnyOrder(Prune(f, xs), n, items, order);
    RootsOfListing(f, xs);
    OuterPrunes(f, xs);
    GrownIsRegrown(Doc(Prune(f, xs), n), items, 0);
    assert items[0..] == items;
  }

  /**
    Whatever items are selected, folders and their contents included: after undo
    and the stack's walk, redo is back at the forest the deletion left, and so is
    every later redo; every later undo gives what the first one did, ids of
    rebuilt items aside.
  */
  lemma {:induction false} DeletionRoundTrips(f: Forest<Item>, xs: seq<int>, n: nat, order: seq<Info>, m: nat)
    requires Wf(f) && Bounded(f, n) && Selected(f, xs) && Ordered(Entries(f, xs), order)
    ensures var h := Prune(f, xs); var u := EditorUndo(f, xs, n, order);
            && Redone(u.doc.forest, u.items, u.items) == h
            && var (d, s) := Rounds(Doc(h, u.doc.maxId), u.items, m);
               && d.forest == h && Erase(Grown(d, s, 0).forest) == Erase(u.doc.forest)
               && forall x :: x in Ids(h) ==> x in Ids(Grown(d, s, 0).forest)
  {
    var h, items := Prune(f, xs), Entries(f, xs);
    EditorListing(f, xs, n);
    EditorUndoIs(f, xs, n, order);
    RedoExact(h, n, items);
    var u := EditorUndo(f, xs, n, order);
    RoundAndRound(h, n, items, m + 1);
    var (d, s) := Rounds(Doc(h, n), items, m + 1);
    AlikeErase(Grown(Doc(h, n), items, 0).forest, Grown(d, s, 0).forest, Ids(h));
    GrownFacts(h, d.maxId, s, 0);
  }
}
