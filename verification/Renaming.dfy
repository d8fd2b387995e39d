/**
  Renaming ids: the pairs an undone deletion or a redone addition hands to the
  undo stack, applied one pair after another (src/EditorUndoStack.cpp,
  remapItemIDs).
*/
module Renaming {
  import opened Common
  import opened Forests

  /** One id under a list of (old, new) pairs, each applied to what the previous ones left. */
  function Subst(x: int, pairs: seq<(int, int)>): int
    decreases |pairs|
  {
    if pairs == [] then x else Subst(if x == pairs[0].0 then pairs[0].1 else x, pairs[1..])
  }

  function Rename<T>(f: Forest<T>, pairs: seq<(int, int)>): (r: Forest<T>)
    ensures Single(f) ==> Single(r)
  {
    match f
    case Nil => Nil
    case Cons(id, item, kids, rest) => Cons(Subst(id, pairs), item, Rename(kids, pairs), Rename(rest, pairs))
  }

  /** The pairs for recreated nodes: ids recorded before, against ids handed out after `n`. */
  function Pairs(olds: seq<int>, n: nat): (pairs: seq<(int, int)>)
    ensures |pairs| == |olds|
  {
    if olds == [] then [] else [(olds[0], n + 1)] + Pairs(olds[1..], n + 1)
  }

  /** No two ids up to `n` are given the same name. */
  ghost predicate Injective(pairs: seq<(int, int)>, n: nat) {
    forall x, y :: x <= n && y <= n && Subst(x, pairs) == Subst(y, pairs) ==> x == y
  }

  ghost predicate Bounded<T>(f: Forest<T>, n: nat) {
    forall x :: x in Ids(f) ==> 0 < x <= n
  }

  lemma {:induction false} BoundedParts<T>(f: Forest<T>, n: nat)
    requires f.Cons? && Bounded(f, n)
    ensures Bounded(f.kids, n) && Bounded(f.rest, n) && 0 < f.id <= n
  {
    assert Ids(f) == {f.id} + Ids(f.kids) + Ids(f.rest);
    assert f.id in Ids(f);
    forall x | x in Ids(f.kids) || x in Ids(f.rest) ensures 0 < x <= n { assert x in Ids(f); }
  }

  // ---------------------------------------------------------------- one after another is all at once

  lemma {:induction false} Untouched(x: int, olds: seq<int>, n: nat)
    requires x !in olds
    ensures Subst(x, Pairs(olds, n)) == x
  {
    if olds != [] {
      Untouched(x, olds[1..], n + 1);
      assert Pairs(olds, n)[1..] == Pairs(olds[1..], n + 1);
    }
  }

  lemma {:induction false} Touched(olds: seq<int>, n: nat, i: nat)
    requires Distinct(olds) && i < |olds| && forall x :: x in olds ==> x <= n
    ensures Subst(olds[i], Pairs(olds, n)) == n + 1 + i
  {
    assert Pairs(olds, n)[1..] == Pairs(olds[1..], n + 1);
    assert olds[0] in olds && forall j :: 0 <= j < |olds[1..]| ==> olds[1..][j] == olds[j + 1];
    assert forall x :: x in olds[1..] ==> x in olds;
    if i == 0 {
      Untouched(n + 1, olds[1..], n + 1);
    } else {
      Touched(olds[1..], n + 1, i - 1);
    }
  }

  /**
    Applying the recorded pairs one after another is one simultaneous substitution
    that never merges two ids: the recorded ids are distinct, and the new ones lie
    beyond every id in use.
  */
  lemma {:induction false} Simultaneous(olds: seq<int>, n: nat)
    requires Distinct(olds) && forall x :: x in olds ==> x <= n
    ensures forall i :: 0 <= i < |olds| ==> Subst(olds[i], Pairs(olds, n)) == n + 1 + i
    ensures forall x :: x !in olds ==> Subst(x, Pairs(olds, n)) == x
    ensures Injective(Pairs(olds, n), n)
  {
    var pairs := Pairs(olds, n);
    forall i | 0 <= i < |olds| ensures Subst(olds[i], pairs) == n + 1 + i { Touched(olds, n, i); }
    forall x | x !in olds ensures Subst(x, pairs) == x { Untouched(x, olds, n); }
    forall x, y | x <= n && y <= n && Subst(x, pairs) == Subst(y, pairs) ensures x == y {
      if x in olds && y in olds {
        var i :| 0 <= i < |olds| && olds[i] == x;
        var j :| 0 <= j < |olds| && olds[j] == y;
        assert Subst(olds[i], pairs) == Subst(olds[j], pairs);
      }
    }
  }

  /** Reusing an id that is still to be renamed would merge two nodes: freshness is what the pairs rely on. */
  lemma {:induction false} StaleIdsMerge()
    ensures Subst(1, [(1, 2), (2, 3)]) == Subst(2, [(1, 2), (2, 3)])
  {
    assert [(1, 2), (2, 3)][1..] == [(2, 3)];
    assert [(2, 3)][1..] == [];
  }

  // ---------------------------------------------------------------- renaming commutes with everything

  lemma {:induction false} RenameMember<T>(f: Forest<T>, pairs: seq<(int, int)>, n: nat, x: int)
    requires Injective(pairs, n) && Bounded(f, n) && x <= n
    ensures x in Ids(f) <==> Subst(x, pairs) in Ids(Rename(f, pairs))
  {
    if f.Cons? {
      BoundedParts(f, n);
      RenameMember(f.kids, pairs, n, x);
      RenameMember(f.rest, pairs, n, x);
    }
  }

  lemma {:induction false} RenameFrom<T>(f: Forest<T>, pairs: seq<(int, int)>, y: int) returns (x: int)
    requires y in Ids(Rename(f, pairs))
    ensures x in Ids(f) && y == Subst(x, pairs)
  {
    if y == Subst(f.id, pairs) { x := f.id; }
    else if y in Ids(Rename(f.kids, pairs)) { x := RenameFrom(f.kids, pairs, y); }
    else { x := RenameFrom(f.rest, pairs, y); }
  }

  lemma {:induction false} RenameErase<T>(f: Forest<T>, pairs: seq<(int, int)>)
    ensures Erase(Rename(f, pairs)) == Erase(f)
  {
    if f.Cons? {
      RenameErase(f.kids, pairs);
      RenameErase(f.rest, pairs);
    }
  }

  lemma {:induction false} RenameWf<T>(f: Forest<T>, pairs: seq<(int, int)>, n: nat)
    requires Injective(pairs, n) && Bounded(f, n) && Wf(f)
    ensures Wf(Rename(f, pairs))
  {
    if f.Cons? {
      BoundedParts(f, n);
      RenameWf(f.kids, pairs, n);
      RenameWf(f.rest, pairs, n);
      RenameMember(f.kids, pairs, n, f.id);
      RenameMember(f.rest, pairs, n, f.id);
      forall y | y in Ids(Rename(f.kids, pairs)) ensures y !in Ids(Rename(f.rest, pairs)) {
        var x := RenameFrom(f.kids, pairs, y);
        RenameMember(f.rest, pairs, n, x);
      }
    }
  }

  lemma {:induction false} RenameUntouched<T>(f: Forest<T>, pairs: seq<(int, int)>)
    requires forall x :: x in Ids(f) ==> Subst(x, pairs) == x
    ensures Rename(f, pairs) == f
  {
    if f.Cons? {
      assert f.id in Ids(f);
      RenameUntouched(f.kids, pairs);
      RenameUntouched(f.rest, pairs);
    }
  }

  lemma {:induction false} RenameInsertHere<T>(f: Forest<T>, pos: int, t: Forest<T>, pairs: seq<(int, int)>)
    requires Single(t)
    ensures Rename(InsertHere(f, pos, t), pairs) == InsertHere(Rename(f, pairs), pos, Rename(t, pairs))
  {
    if f.Cons? && pos > 0 { RenameInsertHere(f.rest, pos - 1, t, pairs); }
  }

  lemma {:induction false} RenameInsertUnder<T>(f: Forest<T>, parent: int, pos: int, t: Forest<T>,
                                                pairs: seq<(int, int)>, n: nat)
    requires Single(t) && Injective(pairs, n) && Bounded(f, n) && parent <= n
    ensures Rename(InsertUnder(f, parent, pos, t), pairs)
         == InsertUnder(Rename(f, pairs), Subst(parent, pairs), pos, Rename(t, pairs))
  {
    if f.Cons? {
      BoundedParts(f, n);
      RenameInsertHere(f.kids, pos, t, pairs);
      RenameInsertUnder(f.kids, parent, pos, t, pairs, n);
      RenameInsertUnder(f.rest, parent, pos, t, pairs, n);
    }
  }

  lemma {:induction false} RenameInsert<T>(f: Forest<T>, parent: int, pos: int, t: Forest<T>,
                                           pairs: seq<(int, int)>, n: nat)
    requires Single(t) && Injective(pairs, n) && Bounded(f, n) && parent <= n
    ensures Rename(Insert(f, parent, pos, t), pairs)
         == Insert(Rename(f, pairs), Subst(parent, pairs), pos, Rename(t, pairs))
  {
    RenameMember(f, pairs, n, parent);
    RenameInsertHere(f, pos, t, pairs);
    RenameInsertUnder(f, parent, pos, t, pairs, n);
  }

  lemma {:induction false} RenameRemove<T>(f: Forest<T>, x: int, pairs: seq<(int, int)>, n: nat)
    requires Injective(pairs, n) && Bounded(f, n) && x <= n
    ensures Rename(Remove(f, x), pairs) == Remove(Rename(f, pairs), Subst(x, pairs))
    ensures Rename(Sub(f, x), pairs) == Sub(Rename(f, pairs), Subst(x, pairs))
  {
    if f.Cons? {
      BoundedParts(f, n);
      RenameRemove(f.kids, x, pairs, n);
      RenameRemove(f.rest, x, pairs, n);
      RenameMember(f.kids, pairs, n, x);
    }
  }

  lemma {:induction false} RenameUpdate<T>(f: Forest<T>, x: int, item: T, pairs: seq<(int, int)>, n: nat)
    requires Injective(pairs, n) && Bounded(f, n) && x <= n
    ensures Rename(Update(f, x, item), pairs) == Update(Rename(f, pairs), Subst(x, pairs), item)
    ensures x in Ids(f) ==> Subst(x, pairs) in Ids(Rename(f, pairs))
    ensures x in Ids(f) ==> ItemOf(Rename(f, pairs), Subst(x, pairs)) == ItemOf(f, x)
  {
    if f.Cons? {
      BoundedParts(f, n);
      RenameUpdate(f.kids, x, item, pairs, n);
      RenameUpdate(f.rest, x, item, pairs, n);
      RenameMember(f.kids, pairs, n, x);
    }
  }

  lemma {:induction false} OrderParts<T>(f: Forest<T>)
    requires f.Cons?
    ensures Order(f)[0] == f.id
    ensures forall i :: 0 <= i < Size(f.kids) ==> Order(f)[i + 1] == Order(f.kids)[i]
    ensures forall i :: 0 <= i < Size(f.rest) ==> Order(f)[i + 1 + Size(f.kids)] == Order(f.rest)[i]
  {
    assert Order(f) == [f.id] + Order(f.kids) + Order(f.rest);
  }

  /** The nodes of `f`, in pre-order, are renamed to the ids after `n`, in order. */
  ghost predicate Consecutive<T>(f: Forest<T>, pairs: seq<(int, int)>, n: nat) {
    forall i :: 0 <= i < Size(f) ==> Subst(Order(f)[i], pairs) == n + 1 + i
  }

  lemma {:induction false} ConsecutiveParts<T>(f: Forest<T>, pairs: seq<(int, int)>, n: nat)
    requires f.Cons? && Consecutive(f, pairs, n)
    ensures Subst(f.id, pairs) == n + 1
    ensures Consecutive(f.kids, pairs, n + 1) && Consecutive(f.rest, pairs, n + 1 + Size(f.kids))
  {
    OrderParts(f);
    forall i | 0 <= i < Size(f.kids) ensures Subst(Order(f.kids)[i], pairs) == n + 2 + i {
      assert Order(f)[i + 1] == Order(f.kids)[i];
    }
    forall i | 0 <= i < Size(f.rest) ensures Subst(Order(f.rest)[i], pairs) == n + 2 + Size(f.kids) + i {
      assert Order(f)[i + 1 + Size(f.kids)] == Order(f.rest)[i];
    }
  }

  /** Listing old and new nodes in the same pre-order makes the renamed tree the recreated one. */
  lemma {:induction false} RenameIsFreshen<T>(f: Forest<T>, pairs: seq<(int, int)>, n: nat)
    requires Consecutive(f, pairs, n)
    ensures Rename(f, pairs) == Freshen(f, n)
  {
    if f.Cons? {
      ConsecutiveParts(f, pairs, n);
      RenameIsFreshen(f.kids, pairs, n + 1);
      RenameIsFreshen(f.rest, pairs, n + 1 + Size(f.kids));
    }
  }

  lemma {:induction false} OrderDistinct<T>(f: Forest<T>)
    requires Wf(f)
    ensures Distinct(Order(f))
  {
    if f.Cons? {
      OrderDistinct(f.kids);
      OrderDistinct(f.rest);
      OrderIds(f.kids);
      OrderIds(f.rest);
      DistinctConcat(Order(f.kids), Order(f.rest));
      DistinctConcat([f.id], Order(f.kids) + Order(f.rest));
      assert Order(f) == [f.id] + (Order(f.kids) + Order(f.rest));
    }
  }

  lemma {:induction false} DistinctConcat(a: seq<int>, b: seq<int>)
    requires Distinct(a) && Distinct(b) && forall x :: x in a ==> x !in b
    ensures Distinct(a + b)
  {
    forall i, j | 0 <= i < j < |a + b| ensures (a + b)[i] != (a + b)[j] {
      if i < |a| <= j {
        assert a[i] in a && b[j - |a|] in b;
      }
    }
  }

  function After(n: nat, count: nat): (s: seq<int>)
    ensures |s| == count
    decreases count
  {
    if count == 0 then [] else [n + 1] + After(n + 1, count - 1)
  }

  lemma {:induction false} AfterAfter(n: nat, a: nat, b: nat)
    ensures After(n, a) + After(n + a, b) == After(n, a + b)
    decreases a
  {
    if a > 0 {
      AfterAfter(n + 1, a - 1, b);
      assert After(n, a) + After(n + a, b) == [n + 1] + (After(n + 1, a - 1) + After(n + a, b));
    }
  }

  lemma {:induction false} OrderCons<T>(g: Forest<T>, n: nat, a: nat, b: nat)
    requires g.Cons? && g.id == n + 1 && Order(g.kids) == After(n + 1, a) && Order(g.rest) == After(n + 1 + a, b)
    ensures Order(g) == After(n, 1 + a + b)
  {
    calc {
      Order(g);
      [g.id] + Order(g.kids) + Order(g.rest);
      [n + 1] + (After(n + 1, a) + After(n + 1 + a, b));
      { AfterAfter(n + 1, a, b); }
      [n + 1] + After(n + 1, a + b);
      After(n, 1 + a + b);
    }
  }

  /** The ids are those after `n`, handed out in pre-order. */
  predicate Listed<T>(g: Forest<T>, n: nat) {
    g.Cons? ==> g.id == n + 1 && Listed(g.kids, n + 1) && Listed(g.rest, n + 1 + Size(g.kids))
  }

  lemma {:induction false} FreshenListed<T>(f: Forest<T>, n: nat)
    ensures Listed(Freshen(f, n), n)
  {
    if f.Cons? {
      FreshenListed(f.kids, n + 1);
      FreshenListed(f.rest, n + 1 + Size(f.kids));
      FreshenShape(f.kids, n + 1);
    }
  }

  lemma {:induction false} OrderListed<T>(g: Forest<T>, n: nat)
    requires Listed(g, n)
    ensures Order(g) == After(n, Size(g))
  {
    if g.Cons? {
      OrderListed(g.kids, n + 1);
      OrderListed(g.rest, n + 1 + Size(g.kids));
      OrderCons(g, n, Size(g.kids), Size(g.rest));
    }
  }

  /** Recreated nodes, listed in pre-order, carry consecutive ids. */
  lemma {:induction false} OrderFreshen<T>(f: Forest<T>, n: nat)
    ensures Order(Freshen(f, n)) == After(n, Size(f))
  {
    FreshenListed(f, n);
    FreshenShape(f, n);
    OrderListed(Freshen(f, n), n);
  }
}
