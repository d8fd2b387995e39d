/**
  What undoing a deletion does in the order the entries were sorted into, entry by
  entry, comes to the same for every such order (src/EditorDeleteItemCommand.cpp, undo).
*/
module DeletionOrder {
  import opened Forests
  import opened EditorCommands
  import opened RestoreOrder
  import opened EditorDelete
  import opened DeletionRounds

  // ---------------------------------------------------------------- adopting one by one is moving all

  /** The names listed under parent `p`. */
  function Names(s: seq<Info>, p: int): multiset<string> {
    if s == [] then multiset{} else (if s[0].parent == p then multiset{s[0].name} else multiset{}) + Names(s[1..], p)
  }

  lemma {:induction false} NamesIn(s: seq<Info>, p: int, i: nat)
    requires i < |s| && s[i].parent == p
    ensures s[i].name in Names(s, p)
  {
    if i > 0 { NamesIn(s[1..], p, i - 1); }
  }

  lemma {:induction false} NamesFrom(s: seq<Info>, p: int, name: string)
    requires name in Names(s, p)
    ensures FirstWith(s, (name, p)) < |s|
  {
    if !(s[0].parent == p && s[0].name == name) { NamesFrom(s[1..], p, name); }
  }

  /** Lists that agree on names and on who is under `p`. */
  lemma {:induction false} SameNames(s: seq<Info>, r: seq<Info>, p: int)
    requires |s| == |r| && forall i :: 0 <= i < |s| ==>
              s[i].name == r[i].name && (s[i].parent == p <==> r[i].parent == p)
    ensures Names(s, p) == Names(r, p)
  {
    if s != [] {
      forall i | 0 <= i < |s[1..]| ensures s[1..][i] == s[i + 1] && r[1..][i] == r[i + 1] {}
      SameNames(s[1..], r[1..], p);
    }
  }

  lemma {:induction false} NamesLess(s: seq<Info>, p: int, k: nat, x: Info)
    requires k < |s| && s[k].parent == p && x.parent != p
    ensures Names(s[k := x], p) == Names(s, p) - multiset{s[k].name} && s[k].name in Names(s, p)
  {
    var r := s[k := x];
    if k == 0 {
      assert r[1..] == s[1..];
    } else {
      assert r[1..] == s[1..][k - 1 := x];
      NamesLess(s[1..], p, k - 1, x);
    }
  }

  lemma {:induction false} AdoptOne(s: seq<Info>, name: string, from: int, to: int)
    requires from != to
    ensures Names(Adopt(s, name, from, to), from) == Names(s, from) - multiset{name}
    ensures MoveAll(Adopt(s, name, from, to), from, to) == MoveAll(s, from, to)
  {
    var k := FirstWith(s, (name, from));
    if k < |s| {
      NamesLess(s, from, k, s[k].(parent := to));
    } else if name in Names(s, from) {
      NamesFrom(s, from, name);
    }
  }

  lemma {:induction false} NoNames(s: seq<Info>, from: int, to: int)
    requires Names(s, from) == multiset{}
    ensures MoveAll(s, from, to) == s
  {
    forall i | 0 <= i < |s| ensures s[i].parent != from {
      if s[i].parent == from { NamesIn(s, from, i); }
    }
  }

  /** When every entry under `from` is among those still to come, all of them are moved. */
  lemma {:induction false} AdoptAll(s: seq<Info>, later: seq<Info>, from: int, to: int)
    requires from != to && Names(s, from) <= Names(later, from)
    ensures AdoptEach(s, later, from, to) == MoveAll(s, from, to)
    decreases |later|
  {
    if later == [] {
      NoNames(s, from, to);
    } else if later[0].parent == from {
      AdoptOne(s, later[0].name, from, to);
      AdoptAll(Adopt(s, later[0].name, from, to), later[1..], from, to);
    } else {
      AdoptAll(s, later[1..], from, to);
    }
  }

  // ---------------------------------------------------------------- who is under an item still to be rebuilt

  lemma {:induction false} NamesKids(h: Forest<Item>, items: seq<Info>, s: seq<Info>, kids: Forest<Item>, parent: int,
                                     anchors: set<int>, reserved: set<int>, n: nat, p: int)
    requires Tracked(h, items, s, anchors, reserved, n) && parent != TOP && parent !in Ids(h) && p in reserved
    requires forall x :: x in Ids(kids) ==> 0 < x <= n && x !in Ids(h) && x !in reserved
    ensures Names(RenameKids(s, kids, parent), p) == Names(s, p)
    decreases kids
  {
    if kids.Cons? {
      var k := FirstWith(s, (kids.item.name, parent));
      var r := s;
      if k < |s| && s[k].item != kids.id {
        TrackedParent(h, items, s, anchors, reserved, n, k);
        assert TrackedAt(h, items, s, anchors, reserved, n, k);
        assert kids.id in Ids(kids);
        var s1 := MoveAll(s[k := s[k].(item := kids.id)], s[k].item, kids.id);
        SameNames(s, s1, p);
        RenameOne(h, items, s, k, kids.id, anchors, reserved, n);
        NamesKids(h, items, s1, kids.kids, kids.id, anchors, reserved, n, p);
        RenameKidsKeeps(h, items, s1, kids.kids, kids.id, anchors, reserved, n);
        r := RenameKids(s1, kids.kids, kids.id);
      }
      NamesKids(h, items, r, kids.rest, parent, anchors, reserved, n, p);
    }
  }

  /** Rebuilding one item: the entry written, and the entries below it as they are then. */
  lemma {:induction false} RootWritten(h: Forest<Item>, n: nat, items: seq<Info>, k: nat) returns (f: nat)
    requires Listing(h, n, items) && k < |items| && OnBase(h, items[k])
    ensures var d := Doc(h, n); var s, t := GrownItems(d, items, k + 1), NewTree(d, items, k);
            && IsRoot(items, items[k]) && Single(items[k].snapshot) && Single(t) && t.id > n && items[k].item <= n
            && f == FirstWith(s, Key(items[k])) && f < |s|
            && Tracked(h, items, MoveAll(s[f := s[f].(item := t.id)], items[k].item, t.id), Anchors(d, items, k),
                       Reserved(d, items), Grown(d, items, k).maxId)
  {
    var d, s := Doc(h, n), GrownItems(Doc(h, n), items, k + 1);
    f := FirstWith(s, Key(items[k]));
    assert Entered(h, n, items, k);
    WhereWritten(h, n, items, k + 1);
    KidsUnreserved(h, n, items, k);
    NewIdBounds(h, n, items, k);
    FirstRoot(h, n, items, s, k, f);
    MoveRoot(h, n, items, s, k, f, NewId(d, items, k));
  }

  lemma {:induction false} NamesStep(h: Forest<Item>, n: nat, items: seq<Info>, k: nat, p: int)
    requires Listing(h, n, items) && k < |items| && OnBase(h, items[k])
    requires p <= n && p != items[k].item && p in Reserved(Doc(h, n), items)
    ensures Names(GrownItems(Doc(h, n), items, k), p) == Names(GrownItems(Doc(h, n), items, k + 1), p)
  {
    var d, s, x := Doc(h, n), GrownItems(Doc(h, n), items, k + 1), items[k];
    var f := RootWritten(h, n, items, k);
    var t := NewTree(d, items, k);
    KidsUnreserved(h, n, items, k);
    NewIdBounds(h, n, items, k);
    var s1 := MoveAll(s[f := s[f].(item := t.id)], x.item, t.id);
    SameNames(s, s1, p);
    NamesKids(h, items, s1, t.kids, t.id, Anchors(d, items, k), Reserved(d, items), Grown(d, items, k).maxId, p);
  }

  lemma {:induction false} NamesGrown(h: Forest<Item>, n: nat, items: seq<Info>, k: nat, j: nat)
    requires Listing(h, n, items) && j < k <= |items| && OnBase(h, items[j])
    ensures Names(GrownItems(Doc(h, n), items, k), items[j].item) == Names(items, items[j].item)
    decreases |items| - k
  {
    if k < |items| {
      NamesGrown(h, n, items, k + 1, j);
      BaseIsRoot(h, n, items, k);
      if OnBase(h, items[k]) {
        assert Entered(h, n, items, j);
        BaseIsRoot(h, n, items, j);
        assert items[j].item == Now(Doc(h, n), items, |items|, j);
        NamesStep(h, n, items, k, items[j].item);
      }
    }
  }

  // ---------------------------------------------------------------- who is brought back

  /** The entries of `rest` that are not skipped. */
  function Unskipped(listed: seq<Info>, rest: seq<Info>): seq<Info> {
    if rest == [] then []
    else (if Skipped(listed, rest[0].item) then [] else [rest[0]]) + Unskipped(listed, rest[1..])
  }

  lemma {:induction false} NotedIn(listed: seq<Info>, id: int) returns (i: nat)
    requires Deleted(listed, id)
    ensures i < |listed| && listed[i].item == id && listed[i].parent == NotedParent(listed, id)
  {
    var n := |listed| - 1;
    if listed[n].item == id {
      i := n;
    } else {
      var j :| 0 <= j < |listed| && listed[j].item == id;
      assert listed[..n][j].item == id;
      i := NotedIn(listed[..n], id);
    }
  }

  /** An item that is rebuilt itself is listed once only, however the entries are arranged. */
  lemma {:induction false} OnceOnly(h: Forest<Item>, n: nat, items: seq<Info>, listed: seq<Info>, i: nat, j: nat)
    requires Listing(h, n, items) && multiset(listed) == multiset(items) && i < |listed| && j < |listed|
    requires OnBase(h, listed[i]) && listed[j].item == listed[i].item
    ensures i == j
  {
    SameMembers(items, listed);
    var x, y := listed[i], listed[j];
    assert x in items && y in items;
    var a :| 0 <= a < |items| && items[a] == x;
    var b :| 0 <= b < |items| && items[b] == y;
    assert Entered(h, n, items, a);
    assert a == b && x == y;
    if i != j {
      Twice(listed, i, j);
      OnceCounted(items, a);
    }
  }

  lemma {:induction false} Twice<T>(s: seq<T>, i: nat, j: nat)
    requires i < |s| && j < |s| && i != j && s[i] == s[j]
    ensures multiset(s)[s[i]] >= 2
  {
    if i == 0 || j == 0 {
      var m := if i == 0 then j else i;
      assert s == [s[0]] + s[1..] && s[1..][m - 1] == s[m];
      assert s[m] in multiset(s[1..]);
    } else {
      assert s == [s[0]] + s[1..];
      Twice(s[1..], i - 1, j - 1);
    }
  }

  lemma {:induction false} OnceCounted<T>(s: seq<T>, a: nat)
    requires a < |s| && forall i :: 0 <= i < |s| && i != a ==> s[i] != s[a]
    ensures multiset(s)[s[a]] == 1
  {
    var before, after := s[..a], s[a + 1..];
    assert s == before + [s[a]] + after;
    assert s[a] !in before && s[a] !in after;
    assert s[a] !in multiset(before) && s[a] !in multiset(after);
  }

  lemma {:induction false} SkippedExactly(h: Forest<Item>, n: nat, items: seq<Info>, listed: seq<Info>, i: nat)
    requires Listing(h, n, items) && multiset(listed) == multiset(items) && i < |listed|
    ensures Skipped(listed, listed[i].item) <==> !IsRoot(items, listed[i])
    ensures IsRoot(items, listed[i]) <==> OnBase(h, listed[i])
  {
    SameMembers(items, listed);
    assert listed[i] in items;
    var a :| 0 <= a < |items| && items[a] == listed[i];
    BaseIsRoot(h, n, items, a);
    assert Deleted(listed, listed[i].item);
    var j := NotedIn(listed, listed[i].item);
    if OnBase(h, listed[i]) { OnceOnly(h, n, items, listed, i, j); }
    if OnBase(h, listed[j]) { OnceOnly(h, n, items, listed, j, i); }
    assert listed[j] in items;
    var b :| 0 <= b < |items| && items[b] == listed[j];
    BaseIsRoot(h, n, items, b);
  }

  lemma {:induction false} UnskippedRoots(h: Forest<Item>, n: nat, items: seq<Info>, listed: seq<Info>, i: nat)
    requires Listing(h, n, items) && multiset(listed) == multiset(items) && i <= |listed|
    ensures Unskipped(listed, listed[i..]) == Roots(items, listed[i..])
    decreases |listed| - i
  {
    if i < |listed| {
      SkippedExactly(h, n, items, listed, i);
      UnskippedRoots(h, n, items, listed, i + 1);
      assert listed[i..][1..] == listed[i + 1..];
    }
  }

  lemma {:induction false} UnskippedMember(listed: seq<Info>, rest: seq<Info>, x: Info)
    ensures x in Unskipped(listed, rest) <==> x in rest && !Skipped(listed, x.item)
  {
    if rest != [] {
      UnskippedMember(listed, rest[1..], x);
      assert rest == [rest[0]] + rest[1..];
    }
  }

  /** Nothing comes before the item it is listed under, if that one is rebuilt itself. */
  ghost predicate NoneAhead(listed: seq<Info>, rest: seq<Info>) {
    forall i, m :: 0 <= m < i < |rest| && !Skipped(listed, rest[i].item) ==> rest[m].parent != rest[i].item
  }

  lemma {:induction false} RootIn(items: seq<Info>, s: seq<Info>, i: nat)
    requires i < |s| && IsRoot(items, s[i])
    ensures Roots(items, s) != []
  {
    if i > 0 { RootIn(items, s[1..], i - 1); }
  }

  lemma {:induction false} ParentAhead(items: seq<Info>, listed: seq<Info>, c: nat, m: nat) returns (q: nat)
    requires multiset(listed) == multiset(items) && m < c <= |listed| && ParentsFirst(items, listed[..c])
    requires listed[m].parent != NO_PARENT && Deleted(listed, listed[m].parent)
    ensures q < m && listed[q].item == listed[m].parent
  {
    SameMembers(items, listed);
    var before := listed[..c];
    assert before[m] == listed[m];
    q :| 0 <= q < |before[..m]| && before[..m][q].item == listed[m].parent;
  }

  lemma {:induction false} AheadAt(h: Forest<Item>, n: nat, items: seq<Info>, listed: seq<Info>, c: nat, i: nat, m: nat)
    requires Listing(h, n, items) && multiset(listed) == multiset(items) && m < i < |listed| && OnBase(h, listed[i])
    requires i < c <= |listed| && ParentsFirst(items, listed[..c])
    ensures listed[m].parent != listed[i].item
  {
    SameMembers(items, listed);
    assert listed[i] in items;
    var a :| 0 <= a < |items| && items[a] == listed[i];
    assert Entered(h, n, items, a);
    if listed[m].parent == listed[i].item {
      var q := ParentAhead(items, listed, c, m);
      OnceOnly(h, n, items, listed, i, q);
    }
  }

  lemma {:induction false} FirstPart(items: seq<Info>, listed: seq<Info>) returns (c: nat)
    requires RootsAhead(items, listed)
    ensures c <= |listed| && ParentsFirst(items, listed[..c])
    ensures forall i :: c <= i < |listed| ==> !IsRoot(items, listed[i])
  {
    c :| 0 <= c <= |listed| && ParentsFirst(items, listed[..c]) && Roots(items, listed[c..]) == [];
    forall i | c <= i < |listed| ensures !IsRoot(items, listed[i]) {
      if IsRoot(items, listed[i]) { RootIn(items, listed[c..], i - c); }
    }
  }

  lemma {:induction false} OrderedAhead(h: Forest<Item>, n: nat, items: seq<Info>, listed: seq<Info>)
    requires Listing(h, n, items) && Ordered(items, listed)
    ensures NoneAhead(listed, listed)
  {
    var c := FirstPart(items, listed);
    forall i, m | 0 <= m < i < |listed| && !Skipped(listed, listed[i].item) ensures listed[m].parent != listed[i].item {
      SkippedExactly(h, n, items, listed, i);
      AheadAt(h, n, items, listed, c, i, m);
    }
  }

  // ---------------------------------------------------------------- the sorted order

  /** Where the last of the items rebuilt themselves is. */
  lemma {:induction false} LastRoot(items: seq<Info>, k: nat) returns (p: nat)
    requires k <= |items| && Roots(items, items[..k]) != []
    ensures p < k && IsRoot(items, items[p]) && Roots(items, items[..k]) == Roots(items, items[..p]) + [items[p]]
    ensures forall i :: p < i < k ==> !IsRoot(items, items[i])
    decreases k
  {
    assert items[..k] == items[..k - 1] + [items[k - 1]];
    RootsLast(items, items[..k - 1], items[k - 1]);
    if IsRoot(items, items[k - 1]) { p := k - 1; } else { p := LastRoot(items, k - 1); }
  }

  /** Undo, with the entries from `k` on done. */
  function Halfway(d: Doc, items: seq<Info>, k: nat): Undoing
    requires k <= |items|
  {
    Undoing(Grown(d, items, k), GrownItems(d, items, k), GrownChanges(d, items, k))
  }

  lemma {:induction false} NothingBetween(d: Doc, items: seq<Info>, p: nat, k: nat)
    requires p <= k <= |items| && forall i :: p <= i < k ==> !IsRoot(items, items[i])
    ensures Halfway(d, items, p) == Halfway(d, items, k)
    decreases k - p
  {
    if p < k { NothingBetween(d, items, p + 1, k); }
  }

  /** The entries still to come, with those from `k` on done. */
  ghost predicate Coming(h: Forest<Item>, items: seq<Info>, listed: seq<Info>, rest: seq<Info>, k: nat) {
    && k <= |items|
    && Unskipped(listed, rest) == Reverse(Roots(items, items[..k]))
    && NoneAhead(listed, rest)
    && forall j :: 0 <= j < k && OnBase(h, items[j]) ==> Names(rest, items[j].item) == Names(items, items[j].item)
  }

  lemma {:induction false} ReverseMember<T>(s: seq<T>, x: T)
    ensures x in Reverse(s) <==> x in s
  {
    if s != [] {
      ReverseMember(s[1..], x);
      assert s == [s[0]] + s[1..];
    }
  }

  lemma {:induction false} RootsMember(items: seq<Info>, s: seq<Info>, x: Info)
    ensures x in Roots(items, s) <==> x in s && IsRoot(items, x)
  {
    if s != [] {
      RootsMember(items, s[1..], x);
      assert s == [s[0]] + s[1..];
    }
  }

  /** What is not skipped are the entries before `k` of items rebuilt themselves. */
  lemma {:induction false} ComingMember(h: Forest<Item>, n: nat, items: seq<Info>, listed: seq<Info>, rest: seq<Info>,
                                        k: nat, x: Info)
    requires Listing(h, n, items) && Coming(h, items, listed, rest, k)
    ensures x in rest && !Skipped(listed, x.item) <==> x in items[..k] && OnBase(h, x)
  {
    UnskippedMember(listed, rest, x);
    ReverseMember(Roots(items, items[..k]), x);
    RootsMember(items, items[..k], x);
    if x in items[..k] {
      var j :| 0 <= j < |items[..k]| && items[..k][j] == x;
      BaseIsRoot(h, n, items, j);
    }
  }

  lemma {:induction false} PassOver(h: Forest<Item>, n: nat, items: seq<Info>, listed: seq<Info>, rest: seq<Info>,
                                    k: nat)
    requires Listing(h, n, items) && Coming(h, items, listed, rest, k) && rest != [] && Skipped(listed, rest[0].item)
    ensures Coming(h, items, listed, rest[1..], k)
  {
    forall j | 0 <= j < k && OnBase(h, items[j]) ensures rest[0].parent != items[j].item {
      assert items[..k][j] == items[j];
      ComingMember(h, n, items, listed, rest, k, items[j]);
      var i :| 0 <= i < |rest| && rest[i] == items[j];
    }
    assert NoneAhead(listed, rest[1..]) by {
      forall i, m | 0 <= m < i < |rest[1..]| && !Skipped(listed, rest[1..][i].item)
        ensures rest[1..][m].parent != rest[1..][i].item {
        assert rest[1..][m] == rest[m + 1] && rest[1..][i] == rest[i + 1];
      }
    }
  }

  /** Rebuilding the next item leaves the rest ready for those before it. */
  lemma {:induction false} ComingNext(h: Forest<Item>, n: nat, items: seq<Info>, listed: seq<Info>, rest: seq<Info>,
                                      k: nat, p: nat, id: int)
    requires Listing(h, n, items) && Coming(h, items, listed, rest, k) && rest != [] && id > n
    requires p < k && rest[0] == items[p] && OnBase(h, items[p])
    requires Roots(items, items[..k]) == Roots(items, items[..p]) + [items[p]]
    requires !Skipped(listed, rest[0].item)
    ensures Coming(h, items, listed, MoveAll(rest[1..], rest[0].item, id), p)
    ensures Names(rest[1..], rest[0].item) == Names(items, rest[0].item)
  {
    var x, later := rest[0], MoveAll(rest[1..], rest[0].item, id);
    assert Entered(h, n, items, p);
    assert Unskipped(listed, rest[1..]) == Reverse(Roots(items, items[..p])) by {
      ReverseLast(Roots(items, items[..p]), [x]);
      assert [x] + Unskipped(listed, rest[1..]) == [x] + Reverse(Roots(items, items[..p]));
      SameTail([x], Unskipped(listed, rest[1..]), Reverse(Roots(items, items[..p])));
    }
    forall i | 0 <= i < |rest| && !Skipped(listed, rest[i].item) ensures OnBase(h, rest[i]) && 0 < rest[i].item <= n {
      ComingMember(h, n, items, listed, rest, k, rest[i]);
      var a :| 0 <= a < |items[..k]| && items[..k][a] == rest[i];
      assert Entered(h, n, items, a);
    }
    UnskippedMoved(h, listed, rest[1..], x.item, id);
    assert NoneAhead(listed, later) by {
      forall i, m | 0 <= m < i < |later| && !Skipped(listed, later[i].item) ensures later[m].parent != later[i].item {
        assert later[i].item == rest[i + 1].item && rest[1..][m] == rest[m + 1];
      }
    }
    forall j | 0 <= j < p && OnBase(h, items[j]) ensures Names(later, items[j].item) == Names(items, items[j].item) {
      assert Entered(h, n, items, j);
      SameNames(rest[1..], later, items[j].item);
    }
  }

  lemma {:induction false} SameTail<T>(a: seq<T>, b: seq<T>, c: seq<T>)
    requires a + b == a + c
    ensures b == c
  {
    assert b == (a + b)[|a|..] && c == (a + c)[|a|..];
  }

  lemma {:induction false} UnskippedMoved(h: Forest<Item>, listed: seq<Info>, rest: seq<Info>, from: int, to: int)
    requires from != TOP && from !in Ids(h)
    requires forall i :: 0 <= i < |rest| && !Skipped(listed, rest[i].item) ==> OnBase(h, rest[i])
    ensures Unskipped(listed, MoveAll(rest, from, to)) == Unskipped(listed, rest)
  {
    if rest != [] {
      assert MoveAll(rest, from, to)[1..] == MoveAll(rest[1..], from, to);
      UnskippedMoved(h, listed, rest[1..], from, to);
    }
  }

  /** Rebuilding the item of entry `p` as undo does it. */
  lemma {:induction false} RebuiltNext(h: Forest<Item>, n: nat, items: seq<Info>, p: nat, later: seq<Info>)
    requires Listing(h, n, items) && p < |items| && OnBase(h, items[p])
    requires Names(later, items[p].item) == Names(items, items[p].item)
    ensures Rebuilt(Halfway(Doc(h, n), items, p + 1), items[p], later) == Halfway(Doc(h, n), items, p)
    ensures Later(Halfway(Doc(h, n), items, p + 1), items[p], later)
              == MoveAll(later, items[p].item, NewId(Doc(h, n), items, p))
  {
    var d, x := Doc(h, n), items[p];
    var s := GrownItems(d, items, p + 1);
    var f := RootWritten(h, n, items, p);
    var t := NewTree(d, items, p);
    NewTreeId(d, items, p);
    var named := s[f := s[f].(item := t.id)];
    NamesGrown(h, n, items, p + 1, p);
    SameNames(s, named, x.item);
    AdoptAll(named, later, x.item, t.id);
  }

  lemma {:induction false} RestoredFrom(h: Forest<Item>, n: nat, items: seq<Info>, listed: seq<Info>, rest: seq<Info>,
                                        k: nat)
    requires Listing(h, n, items) && Coming(h, items, listed, rest, k)
    ensures Restored(Halfway(Doc(h, n), items, k), listed, rest) == Halfway(Doc(h, n), items, 0)
    decreases |rest|
  {
    var d := Doc(h, n);
    if rest == [] {
      RestoredAll(h, n, items, listed, k);
    } else if Skipped(listed, rest[0].item) {
      PassOver(h, n, items, listed, rest, k);
      RestoredFrom(h, n, items, listed, rest[1..], k);
    } else {
      var p := NextUp(h, n, items, listed, rest, k);
      NothingBetween(d, items, p + 1, k);
      ComingNext(h, n, items, listed, rest, k, p, NewId(d, items, p));
      RebuiltNext(h, n, items, p, rest[1..]);
      RestoredFrom(h, n, items, listed, MoveAll(rest[1..], rest[0].item, NewId(d, items, p)), p);
    }
  }

  lemma {:induction false} RestoredAll(h: Forest<Item>, n: nat, items: seq<Info>, listed: seq<Info>, k: nat)
    requires Listing(h, n, items) && Coming(h, items, listed, [], k)
    ensures Halfway(Doc(h, n), items, k) == Halfway(Doc(h, n), items, 0)
  {
    assert |Reverse(Roots(items, items[..k]))| == 0;
    forall i | 0 <= i < k ensures !IsRoot(items, items[i]) {
      if IsRoot(items, items[i]) { RootIn(items, items[..k], i); }
    }
    NothingBetween(Doc(h, n), items, 0, k);
  }

  /** The first entry not skipped is the last root still to be rebuilt. */
  lemma {:induction false} NextUp(h: Forest<Item>, n: nat, items: seq<Info>, listed: seq<Info>, rest: seq<Info>, k: nat)
    returns (p: nat)
    requires Listing(h, n, items) && Coming(h, items, listed, rest, k) && rest != [] && !Skipped(listed, rest[0].item)
    ensures p < k && OnBase(h, items[p]) && items[p] == rest[0]
    ensures Roots(items, items[..k]) == Roots(items, items[..p]) + [items[p]]
    ensures forall i :: p < i < k ==> !IsRoot(items, items[i])
    ensures NewId(Doc(h, n), items, p) > n
  {
    var roots := Roots(items, items[..k]);
    assert |Reverse(roots)| > 0;
    p := LastRoot(items, k);
    ReverseLast(Roots(items, items[..p]), [items[p]]);
    assert Unskipped(listed, rest)[0] == rest[0];
    BaseIsRoot(h, n, items, p);
    NewIdBounds(h, n, items, p);
  }

  lemma {:induction false} WithoutOne<T>(r: seq<T>, i: nat)
    requires i < |r|
    ensures |Without(r, i)| == |r| - 1 && multiset(Without(r, i)) == multiset(r) - multiset{r[i]}
  {
    assert r == r[..i] + [r[i]] + r[i + 1..];
  }

  lemma {:induction false} NamesPermuted(s: seq<Info>, r: seq<Info>, p: int)
    requires multiset(s) == multiset(r)
    ensures Names(s, p) == Names(r, p)
    decreases |s|
  {
    if s == [] {
      assert |multiset(r)| == 0;
    } else {
      assert s[0] in multiset(s) && forall x :: x in multiset(r) ==> x in r;
      var i :| 0 <= i < |r| && r[i] == s[0];
      NamesWithout(r, i, p);
      NamesWithout(s, 0, p);
      WithoutOne(r, i);
      WithoutOne(s, 0);
      NamesPermuted(Without(s, 0), Without(r, i), p);
    }
  }

  lemma {:induction false} NamesHead(s: seq<Info>, x: Info, p: int)
    ensures Names([x] + s, p) == (if x.parent == p then multiset{x.name} else multiset{}) + Names(s, p)
  {
    assert ([x] + s)[0] == x && ([x] + s)[1..] == s;
  }

  lemma {:induction false} WithoutTail<T>(r: seq<T>, i: nat)
    requires 0 < i < |r|
    ensures Without(r, i) == [r[0]] + Without(r[1..], i - 1)
  {
  }

  lemma {:induction false} NamesWithout(r: seq<Info>, i: nat, p: int)
    requires i < |r|
    ensures Names(r, p) == (if r[i].parent == p then multiset{r[i].name} else multiset{}) + Names(Without(r, i), p)
  {
    var x, rest := r[0], r[1..];
    assert r == [x] + rest;
    NamesHead(rest, x, p);
    if i == 0 {
      assert Without(r, 0) == rest;
    } else {
      NamesWithout(rest, i - 1, p);
      WithoutTail(r, i);
      NamesHead(Without(rest, i - 1), x, p);
    }
  }

  /** For entries as the editor lists them, undo comes to the same whatever the order they were sorted into. */
  lemma {:induction false} AnyOrder(h: Forest<Item>, n: nat, items: seq<Info>, order: seq<Info>)
    requires Listing(h, n, items) && Ordered(items, order)
    ensures Restored(Undoing(Doc(h, n), items, []), order, order)
         == Undoing(Grown(Doc(h, n), items, 0), GrownItems(Doc(h, n), items, 0), GrownChanges(Doc(h, n), items, 0))
  {
    var k := |items|;
    assert items[..k] == items && order[0..] == order;
    UnskippedRoots(h, n, items, order, 0);
    OrderedAhead(h, n, items, order);
    forall j | 0 <= j < k && OnBase(h, items[j]) ensures Names(order, items[j].item) == Names(items, items[j].item) {
      NamesPermuted(order, items, items[j].item);
    }
    RestoredFrom(h, n, items, order, order, k);
  }
}
