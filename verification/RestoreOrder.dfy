/**
  The order in which undoing a deletion brings items back
  (src/EditorDeleteItemCommand.cpp, first half of undo): repeated passes from the
  end of the list, each taking every item whose parent is in place, and a last
  resort when a pass finds none.
*/
module RestoreOrder {
  import opened Forests
  import opened EditorCommands

  /** What is recorded of a deleted item. */
  datatype Info = Info(item: int, name: string, parent: int, pos: nat, snapshot: Forest<Item>)

  const NO_PARENT: int := -1

  predicate Deleted(items: seq<Info>, id: int) {
    exists i :: 0 <= i < |items| && items[i].item == id
  }

  /** The item is brought back itself, rather than inside a deleted parent. */
  predicate IsRoot(items: seq<Info>, x: Info) {
    x.parent == NO_PARENT || !Deleted(items, x.parent)
  }

  /** The parent is none, or not among the deleted items, or already processed. */
  predicate CanRestore(items: seq<Info>, processed: set<int>, x: Info) {
    IsRoot(items, x) || x.parent in processed
  }

  /** Every deleted parent comes before its children. */
  predicate ParentsFirst(items: seq<Info>, sorted: seq<Info>) {
    forall k :: 0 <= k < |sorted| && sorted[k].parent != NO_PARENT && Deleted(items, sorted[k].parent) ==>
                  Deleted(sorted[..k], sorted[k].parent)
  }

  /** A first part with parents before children holds everything that is brought back itself. */
  predicate RootsAhead(items: seq<Info>, sorted: seq<Info>) {
    exists c :: 0 <= c <= |sorted| && ParentsFirst(items, sorted[..c]) && Roots(items, sorted[c..]) == []
  }

  /** What the restoring order is relied on for. */
  predicate Ordered(items: seq<Info>, sorted: seq<Info>) {
    && multiset(sorted) == multiset(items)
    && RootsAhead(items, sorted)
    && Roots(items, sorted) == Reverse(Roots(items, items))
  }

  /** Parents rank below their children. */
  ghost predicate Ranks(items: seq<Info>, rank: map<int, nat>) {
    forall x :: x in items ==>
      x.item in rank && (x.parent != NO_PARENT && Deleted(items, x.parent) ==>
          x.parent in rank && rank[x.parent] < rank[x.item])
  }

  ghost predicate Acyclic(items: seq<Info>) {
    exists rank :: Ranks(items, rank)
  }

  /** The items brought back themselves. */
  function Roots(items: seq<Info>, s: seq<Info>): seq<Info> {
    if s == [] then [] else (if IsRoot(items, s[0]) then [s[0]] else []) + Roots(items, s[1..])
  }

  function Reverse<T>(s: seq<T>): (r: seq<T>)
    ensures |r| == |s|
  {
    if s == [] then [] else Reverse(s[1..]) + [s[0]]
  }

  lemma {:induction false} ReverseConcat<T>(a: seq<T>, b: seq<T>)
    ensures Reverse(a + b) == Reverse(b) + Reverse(a)
  {
    if a == [] {
      assert a + b == b;
    } else {
      ReverseConcat(a[1..], b);
      assert (a + b)[1..] == a[1..] + b;
    }
  }

  lemma {:induction false} RootsConcat(items: seq<Info>, a: seq<Info>, b: seq<Info>)
    ensures Roots(items, a + b) == Roots(items, a) + Roots(items, b)
  {
    if a == [] {
      assert a + b == b;
    } else {
      var head := if IsRoot(items, a[0]) then [a[0]] else [];
      RootsConcat(items, a[1..], b);
      calc {
        Roots(items, a + b);
        { assert (a + b)[1..] == a[1..] + b && (a + b)[0] == a[0]; }
        head + Roots(items, a[1..] + b);
        head + (Roots(items, a[1..]) + Roots(items, b));
        Roots(items, a) + Roots(items, b);
      }
    }
  }

  lemma {:induction false} RootsLast(items: seq<Info>, s: seq<Info>, x: Info)
    ensures Roots(items, s + [x]) == Roots(items, s) + Roots(items, [x])
    ensures Roots(items, [x]) == if IsRoot(items, x) then [x] else []
  {
    RootsConcat(items, s, [x]);
    assert [x][1..] == [];
  }

  /** The roots taken so far, followed by the remaining ones from the end, are all of them from the end. */
  ghost predicate Backwards(items: seq<Info>, sorted: seq<Info>, remaining: seq<Info>) {
    Roots(items, sorted) + Reverse(Roots(items, remaining)) == Reverse(Roots(items, items))
  }

  lemma {:induction false} SplitRoots(items: seq<Info>, before: seq<Info>, x: Info, after: seq<Info>)
    requires Roots(items, after) == []
    ensures Roots(items, before + [x] + after) == Roots(items, before) + Roots(items, [x])
    ensures Roots(items, before + after) == Roots(items, before)
  {
    RootsLast(items, before, x);
    RootsConcat(items, before + [x], after);
    RootsConcat(items, before, after);
  }

  lemma {:induction false} ReverseLast<T>(s: seq<T>, t: seq<T>)
    requires |t| <= 1
    ensures Reverse(s + t) == t + Reverse(s)
  {
    ReverseConcat(s, t);
    if t != [] { assert t[1..] == [] && t == [t[0]]; }
  }

  lemma {:induction false} TakeBackwards(items: seq<Info>, sorted: seq<Info>, remaining: seq<Info>, i: nat)
    requires i < |remaining| && Backwards(items, sorted, remaining) && Roots(items, remaining[i + 1..]) == []
    ensures Backwards(items, sorted + [remaining[i]], Without(remaining, i))
  {
    var x, before, after := remaining[i], remaining[..i], remaining[i + 1..];
    var r := Roots(items, [x]);
    assert remaining == before + [x] + after;
    SplitRoots(items, before, x, after);
    RootsLast(items, sorted, x);
    ReverseLast(Roots(items, before), r);
    calc {
      Roots(items, sorted + [x]) + Reverse(Roots(items, before));
      Roots(items, sorted) + r + Reverse(Roots(items, before));
      Roots(items, sorted) + (r + Reverse(Roots(items, before)));
      Roots(items, sorted) + Reverse(Roots(items, remaining));
    }
  }

  /** Two spellings of the tail after a removal. */
  lemma {:induction false} TailOfWithout<T>(s: seq<T>, i: nat)
    requires i < |s|
    ensures Without(s, i)[i..] == s[i + 1..]
  {
  }

  lemma {:induction false} SkippedTail(items: seq<Info>, remaining: seq<Info>, i: nat)
    requires i < |remaining| && Roots(items, remaining[i + 1..]) == []
    requires !IsRoot(items, remaining[i])
    ensures Roots(items, remaining[i..]) == []
  {
    assert remaining[i..][1..] == remaining[i + 1..];
  }

  function Without<T>(s: seq<T>, i: nat): seq<T>
    requires i < |s|
  {
    s[..i] + s[i + 1..]
  }

  /** What one pass keeps of the outer state, with the passes' fixed input `items`. */
  ghost predicate Progress(items: seq<Info>, sorted: seq<Info>, processed: set<int>, remaining: seq<Info>) {
    && multiset(sorted) + multiset(remaining) == multiset(items)
    && (forall x :: x in sorted ==> x.item in processed)
    && (forall id :: id in processed ==> Deleted(sorted, id))
    && ParentsFirst(items, sorted)
  }

  lemma {:induction false} Take(items: seq<Info>, sorted: seq<Info>, processed: set<int>, remaining: seq<Info>, i: nat)
    requires Progress(items, sorted, processed, remaining) && i < |remaining|
    requires CanRestore(items, processed, remaining[i])
    ensures Progress(items, sorted + [remaining[i]], processed + {remaining[i].item}, Without(remaining, i))
  {
    var x := remaining[i];
    var sorted' := sorted + [x];
    assert remaining == remaining[..i] + [x] + remaining[i + 1..];
    assert sorted'[|sorted|] == x;
    forall id | id in processed + {x.item} ensures Deleted(sorted', id) {
      if id in processed {
        var j :| 0 <= j < |sorted| && sorted[j].item == id;
        assert sorted'[j].item == id;
      }
    }
    forall k | 0 <= k < |sorted'| && sorted'[k].parent != NO_PARENT && Deleted(items, sorted'[k].parent)
      ensures Deleted(sorted'[..k], sorted'[k].parent)
    {
      assert sorted'[..k] == sorted[..k];
      if k == |sorted| { assert sorted[..k] == sorted; }
    }
  }

  lemma {:induction false} LowestRank(remaining: seq<Info>, rank: map<int, nat>) returns (i: nat)
    requires remaining != [] && forall x :: x in remaining ==> x.item in rank
    ensures i < |remaining| && forall j :: 0 <= j < |remaining| ==> rank[remaining[i].item] <= rank[remaining[j].item]
  {
    if |remaining| == 1 { return 0; }
    var rest := remaining[1..];
    i := LowestRank(rest, rank);
    i := if rank[remaining[0].item] <= rank[rest[i].item] then 0 else i + 1;
    forall j | 0 <= j < |remaining| ensures rank[remaining[i].item] <= rank[remaining[j].item] {
      if j > 0 { assert remaining[j] == rest[j - 1]; }
    }
  }

  /** While items remain, an acyclic parent relation always leaves one that can be restored. */
  lemma {:induction false} SomeRestorable(items: seq<Info>, sorted: seq<Info>, processed: set<int>,
                                          remaining: seq<Info>)
    returns (i: nat)
    requires Progress(items, sorted, processed, remaining) && remaining != [] && Acyclic(items)
    ensures i < |remaining| && CanRestore(items, processed, remaining[i])
  {
    var rank :| Ranks(items, rank);
    forall x | x in remaining ensures x in items { assert x in multiset(items); }
    i := LowestRank(remaining, rank);
    var x := remaining[i];
    assert x in items;
    if x.parent != NO_PARENT && Deleted(items, x.parent) {
      var j :| 0 <= j < |items| && items[j].item == x.parent;
      var y := items[j];
      assert y in items && rank[y.item] < rank[x.item];
      assert y !in remaining;
      assert y in multiset(items) && y !in multiset(remaining);
      assert y in sorted;
    }
  }

  function FirstIndex(s: seq<Info>, id: int): (k: nat)
    requires Deleted(s, id)
    ensures k < |s| && s[k].item == id && forall j :: 0 <= j < k ==> s[j].item != id
  {
    if s[0].item == id then 0
    else
      assert exists i :: 0 <= i < |s[1..]| && s[1..][i].item == id by {
        var i :| 0 <= i < |s| && s[i].item == id;
        assert s[1..][i - 1].item == id;
      }
      1 + FirstIndex(s[1..], id)
  }

  /** The recorded parent of a node does not depend on which of its entries is read. */
  predicate OneParent(items: seq<Info>) {
    forall x, y :: x in items && y in items && x.item == y.item ==> x.parent == y.parent
  }

  lemma {:induction false} SameMembers(items: seq<Info>, sorted: seq<Info>)
    requires multiset(sorted) == multiset(items)
    ensures forall x :: x in sorted <==> x in items
    ensures forall id :: Deleted(sorted, id) <==> Deleted(items, id)
  {
    assert forall x :: x in sorted <==> x in multiset(sorted);
    assert forall x :: x in items <==> x in multiset(items);
    forall id ensures Deleted(sorted, id) <==> Deleted(items, id) {
      if Deleted(sorted, id) {
        var i :| 0 <= i < |sorted| && sorted[i].item == id;
        assert sorted[i] in items;
      }
      if Deleted(items, id) {
        var i :| 0 <= i < |items| && items[i].item == id;
        assert items[i] in sorted;
      }
    }
  }

  lemma {:induction false} FirstIndexParent(items: seq<Info>, sorted: seq<Info>, x: Info)
    requires multiset(sorted) == multiset(items) && ParentsFirst(items, sorted) && OneParent(items)
    requires x in items && x.parent != NO_PARENT && Deleted(items, x.parent)
    ensures Deleted(sorted, x.parent) && Deleted(sorted, x.item)
    ensures FirstIndex(sorted, x.parent) < FirstIndex(sorted, x.item)
  {
    SameMembers(items, sorted);
    var i :| 0 <= i < |items| && items[i] == x;
    assert items[i].item == x.item;
    var k := FirstIndex(sorted, x.item);
    assert sorted[k] in items && sorted[k].parent == x.parent;
    var m :| 0 <= m < |sorted[..k]| && sorted[..k][m].item == x.parent;
    assert sorted[m].item == x.parent;
  }

  /** A parents-first arrangement is itself a ranking, so there is none when parents run in a cycle. */
  lemma {:induction false} ParentsFirstRanks(items: seq<Info>, sorted: seq<Info>)
    requires multiset(sorted) == multiset(items) && ParentsFirst(items, sorted) && OneParent(items)
    ensures Acyclic(items)
  {
    SameMembers(items, sorted);
    var ids := set x | x in items :: x.item;
    forall id | id in ids ensures Deleted(sorted, id) {
      var i :| 0 <= i < |items| && items[i].item == id;
    }
    var rank := map id | id in ids :: FirstIndex(sorted, id);
    forall x | x in items
      ensures x.item in rank
      ensures (x.parent != NO_PARENT && Deleted(items, x.parent) ==> x.parent in rank && rank[x.parent] < rank[x.item])
    {
      assert x.item in ids;
      if x.parent != NO_PARENT && Deleted(items, x.parent) {
        FirstIndexParent(items, sorted, x);
        var j :| 0 <= j < |items| && items[j].item == x.parent;
        assert items[j] in items && items[j].item in ids;
      }
    }
    assert Ranks(items, rank);
  }

  /** None of the items from `i` on can be restored yet. */
  predicate Stuck(items: seq<Info>, processed: set<int>, remaining: seq<Info>, i: nat) {
    forall j :: i <= j < |remaining| ==> !CanRestore(items, processed, remaining[j])
  }

  /** What appending whatever is left gives when a pass found nothing. */
  lemma {:induction false} LastResort(items: seq<Info>, sorted: seq<Info>, processed: set<int>, remaining: seq<Info>)
    requires Progress(items, sorted, processed, remaining) && remaining != []
    requires Backwards(items, sorted, remaining) && Roots(items, remaining) == []
    requires Stuck(items, processed, remaining, 0)
    ensures !Acyclic(items) && Ordered(items, sorted + remaining)
    ensures OneParent(items) ==> !ParentsFirst(items, sorted + remaining)
  {
    var c, s := |sorted|, sorted + remaining;
    assert s[..c] == sorted && s[c..] == remaining;
    if Acyclic(items) {
      var j := SomeRestorable(items, sorted, processed, remaining);
      assert false;
    }
    RootsConcat(items, sorted, remaining);
    if OneParent(items) && ParentsFirst(items, sorted + remaining) { ParentsFirstRanks(items, sorted + remaining); }
  }

  lemma {:induction false} AllTaken(items: seq<Info>, sorted: seq<Info>, processed: set<int>, remaining: seq<Info>)
    requires Progress(items, sorted, processed, remaining) && Backwards(items, sorted, remaining) && remaining == []
    ensures Ordered(items, sorted) && ParentsFirst(items, sorted)
    ensures OneParent(items) ==> Acyclic(items)
  {
    assert multiset(remaining) == multiset{};
    var c := |sorted|;
    assert sorted[..c] == sorted && sorted[c..] == [];
    if OneParent(items) { ParentsFirstRanks(items, sorted); }
  }

  /** What a pass keeps: everything taken is in place, and no root is left from `i` on. */
  ghost predicate Underway(items: seq<Info>, sorted: seq<Info>, processed: set<int>, remaining: seq<Info>, i: nat) {
    && i <= |remaining|
    && Progress(items, sorted, processed, remaining)
    && Backwards(items, sorted, remaining)
    && Roots(items, remaining[i..]) == []
  }

  lemma {:induction false} TakeNext(items: seq<Info>, sorted: seq<Info>, processed: set<int>, remaining: seq<Info>,
                                    i: nat)
    requires i < |remaining| && Underway(items, sorted, processed, remaining, i + 1)
    requires CanRestore(items, processed, remaining[i])
    ensures Underway(items, sorted + [remaining[i]], processed + {remaining[i].item}, Without(remaining, i), i)
  {
    Take(items, sorted, processed, remaining, i);
    TakeBackwards(items, sorted, remaining, i);
    TailOfWithout(remaining, i);
  }

  lemma {:induction false} SkipNext(items: seq<Info>, sorted: seq<Info>, processed: set<int>, remaining: seq<Info>,
                                    i: nat)
    requires i < |remaining| && Underway(items, sorted, processed, remaining, i + 1)
    requires !CanRestore(items, processed, remaining[i])
    ensures Underway(items, sorted, processed, remaining, i)
  {
    SkippedTail(items, remaining, i);
  }

  /** One pass over the remaining items, from the end, taking each that can be restored by then. */
  method Pass(items: seq<Info>, sorted0: seq<Info>, processed0: set<int>, remaining0: seq<Info>)
    returns (sorted: seq<Info>, processed: set<int>, remaining: seq<Info>, madeProgress: bool)
    requires Underway(items, sorted0, processed0, remaining0, |remaining0|)
    ensures Underway(items, sorted, processed, remaining, 0)
    ensures if madeProgress then |remaining| < |remaining0| else sorted == sorted0 && remaining == remaining0
    ensures madeProgress || Stuck(items, processed, remaining, 0)
  {
    sorted, processed, remaining, madeProgress := sorted0, processed0, remaining0, false;
    var i := |remaining|;
    while i > 0
      invariant 0 <= i <= |remaining|
      invariant Underway(items, sorted, processed, remaining, i)
      invariant if madeProgress then |remaining| < |remaining0| else sorted == sorted0 && remaining == remaining0
      invariant madeProgress || Stuck(items, processed, remaining, i)
    {
      i := i - 1;
      var x := remaining[i];
      if CanRestore(items, processed, x) {
        TakeNext(items, sorted, processed, remaining, i);
        sorted := sorted + [x];
        processed := processed + {x.item};
        remaining := Without(remaining, i);
        madeProgress := true;
      } else {
        SkipNext(items, sorted, processed, remaining, i);
      }
    }
  }

  /**
    The restoring order: a permutation of the items, with parents first exactly
    when parents run in no cycle, and the roots in reverse list order.
  */
  method Sort(items: seq<Info>) returns (sorted: seq<Info>)
    ensures Ordered(items, sorted)
    ensures Acyclic(items) ==> ParentsFirst(items, sorted)
    ensures OneParent(items) ==> (ParentsFirst(items, sorted) <==> Acyclic(items))
  {
    sorted := [];
    var processed: set<int> := {};
    var remaining := items;
    while remaining != []
      invariant Progress(items, sorted, processed, remaining)
      invariant Backwards(items, sorted, remaining)
      decreases |remaining|
    {
      assert remaining[|remaining|..] == [];
      var madeProgress;
      sorted, processed, remaining, madeProgress := Pass(items, sorted, processed, remaining);
      assert remaining[0..] == remaining;
      if !madeProgress && remaining != [] {
        LastResort(items, sorted, processed, remaining);
        sorted := sorted + remaining;
        return;
      }
    }
    AllTaken(items, sorted, processed, remaining);
  }

  /** `path` leads from an ancestor down to a descendant, each the recorded parent of the next. */
  predicate Descends(path: seq<Info>) {
    path != [] && forall i :: 0 < i < |path| ==> path[i].parent == path[i - 1].item && path[i].parent != NO_PARENT
  }

  lemma {:induction false} ParentBefore(items: seq<Info>, sorted: seq<Info>, k: nat, up: Info) returns (m: nat)
    requires multiset(sorted) == multiset(items) && ParentsFirst(items, sorted) && OneParent(items)
    requires k < |sorted| && up in items && sorted[k].parent == up.item && up.item != NO_PARENT
    ensures m < k && sorted[m].item == up.item && sorted[m].parent == up.parent
  {
    var i :| 0 <= i < |items| && items[i] == up;
    assert Deleted(items, sorted[k].parent);
    m :| 0 <= m < |sorted[..k]| && sorted[..k][m].item == sorted[k].parent;
    assert sorted[m] in multiset(sorted);
    assert sorted[m] in items;
  }

  /** Parents first at every step means ancestors first at any depth. */
  lemma {:induction false} AncestorsFirst(items: seq<Info>, sorted: seq<Info>, path: seq<Info>, k: nat) returns (j: nat)
    requires multiset(sorted) == multiset(items) && ParentsFirst(items, sorted) && OneParent(items)
    requires Descends(path) && |path| > 1 && (forall x :: x in path ==> x in items)
    requires k < |sorted| && sorted[k].item == path[|path| - 1].item && sorted[k].parent == path[|path| - 1].parent
    ensures j < k && sorted[j].item == path[0].item
    decreases |path|
  {
    var n := |path| - 1;
    assert path[n - 1] in items;
    var m := ParentBefore(items, sorted, k, path[n - 1]);
    if n == 1 {
      j := m;
    } else {
      var up := path[..n];
      assert up[n - 1] == path[n - 1];
      assert forall x :: x in up ==> x in path;
      j := AncestorsFirst(items, sorted, up, m);
    }
  }
}
