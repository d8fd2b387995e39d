/**
  When undoing a deletion gives the original forest back: positions are noted for
  all items before any is deleted (src/dlgTriggerEditor.cpp, delete_alias), and
  undo puts the items back one at a time (src/EditorDeleteItemCommand.cpp, undo).
*/
module RestoredForest {
  import opened Common
  import opened Forests
  import opened Renaming
  import opened EditorCommands
  import opened RestoreOrder
  import opened DeletionListing
  import opened DeletionEntries
  import opened RestorePositions

  // ---------------------------------------------------------------- the siblings under one parent

  function Named(s: seq<nat>, names: seq<int>): (r: seq<int>)
    ensures |r| == |s|
  {
    seq(|s|, i requires 0 <= i < |s| => if s[i] < |names| then names[s[i]] else 0)
  }

  lemma {:induction false} NamedInsert(s: seq<nat>, pos: nat, v: nat, names: seq<int>)
    requires v < |names|
    ensures Named(InsertAt(s, pos, v), names) == InsertAt(Named(s, names), pos, names[v])
  {
  }

  lemma {:induction false} TopsInsert<T>(f: Forest<T>, pos: nat, t: Forest<T>)
    requires Single(t)
    ensures Tops(InsertHere(f, pos, t)) == InsertAt(Tops(f), pos, t.id)
  {
    if f.Cons? && pos > 0 {
      TopsInsert(f.rest, pos - 1, t);
      var s := Tops(f.rest);
      assert InsertAt([f.id] + s, pos, t.id) == [f.id] + InsertAt(s, pos - 1, t.id);
    }
  }

  lemma {:induction false} TopIndex<T>(f: Forest<T>, x: int)
    requires Wf(f) && AtTop(f, x)
    ensures PositionOf(f, x) < |Tops(f)| && Tops(f)[PositionOf(f, x)] == x
  {
    if f.id != x {
      TopIds(f.rest, x);
      TopIndex(f.rest, x);
    }
  }

  lemma {:induction false} TopsIn<T>(f: Forest<T>, i: nat)
    requires i < |Tops(f)|
    ensures Tops(f)[i] in Ids(f) && AtTop(f, Tops(f)[i])
  {
    if i > 0 { TopsIn(f.rest, i - 1); }
  }

  lemma {:induction false} TopsDistinct<T>(f: Forest<T>)
    requires Wf(f)
    ensures Distinct(Tops(f))
  {
    if f.Cons? {
      TopsDistinct(f.rest);
      forall i | 0 <= i < |Tops(f.rest)| ensures Tops(f.rest)[i] != f.id { TopsIn(f.rest, i); }
    }
  }

  function Others(s: seq<int>, xs: seq<int>): seq<int> {
    if s == [] then [] else (if s[0] in xs then [] else [s[0]]) + Others(s[1..], xs)
  }

  lemma {:induction false} OthersConcat(a: seq<int>, b: seq<int>, xs: seq<int>)
    ensures Others(a + b, xs) == Others(a, xs) + Others(b, xs)
  {
    if a == [] {
      assert a + b == b;
    } else {
      var head := if a[0] in xs then [] else [a[0]];
      OthersConcat(a[1..], b, xs);
      calc {
        Others(a + b, xs);
        { assert (a + b)[1..] == a[1..] + b; }
        head + Others(a[1..] + b, xs);
        head + (Others(a[1..], xs) + Others(b, xs));
        Others(a, xs) + Others(b, xs);
      }
    }
  }

  lemma {:induction false} OthersTwice(s: seq<int>, x: int, xs: seq<int>)
    ensures Others(Others(s, [x]), xs) == Others(s, [x] + xs)
  {
    if s != [] {
      OthersTwice(s[1..], x, xs);
      OthersConcat(if s[0] in [x] then [] else [s[0]], Others(s[1..], [x]), xs);
      assert s[0] in [x] + xs <==> s[0] == x || s[0] in xs;
    }
  }

  lemma {:induction false} OthersNone(s: seq<int>, x: int)
    requires x !in s
    ensures Others(s, [x]) == s
  {
    if s != [] { OthersNone(s[1..], x); }
  }

  /** Removing a node takes it out of the list it is in. */
  lemma {:induction false} TopsRemove<T>(f: Forest<T>, x: int)
    requires Wf(f)
    ensures Tops(Remove(f, x)) == Others(Tops(f), [x])
  {
    if f.Cons? {
      if f.id == x {
        forall i | 0 <= i < |Tops(f.rest)| ensures Tops(f.rest)[i] != x { TopsIn(f.rest, i); }
        OthersNone(Tops(f.rest), x);
      } else {
        TopsRemove(f.rest, x);
      }
    }
  }

  lemma {:induction false} OthersEmpty(s: seq<int>)
    ensures Others(s, []) == s
  {
    if s != [] { OthersEmpty(s[1..]); }
  }

  lemma {:induction false} NamedLast(s: seq<nat>, v: nat, names: seq<int>)
    requires v < |names|
    ensures Named(s + [v], names) == Named(s, names) + [names[v]]
  {
  }

  lemma {:induction false} OthersLast(s: seq<int>, y: int, xs: seq<int>)
    ensures Others(s + [y], xs) == Others(s, xs) + if y in xs then [] else [y]
  {
    OthersConcat(s, [y], xs);
    assert [y][1..] == [];
  }

  lemma {:induction false} KeptNamed(n: nat, ps: seq<nat>, xs: seq<int>, names: seq<int>, tops: seq<int>)
    requires n <= |names| == |tops| && forall v: nat :: v < n ==>
              (v in ps <==> tops[v] in xs) && (v !in ps ==> names[v] == tops[v])
    ensures Named(Kept(n, ps), names) == Others(tops[..n], xs)
  {
    if n > 0 {
      KeptNamed(n - 1, ps, xs, names, tops);
      assert tops[..n] == tops[..n - 1] + [tops[n - 1]];
      OthersLast(tops[..n - 1], tops[n - 1], xs);
      NamedLast(Kept(n - 1, ps), n - 1, names);
      assert Kept(n - 1, ps) + [] == Kept(n - 1, ps);
    }
  }

  lemma {:induction false} NamedOrder(s: seq<nat>, names: seq<int>)
    requires Distinct(names) && forall v :: v in s ==> v < |names|
    ensures Named(s, names) == names <==> s == Upto(|names|)
  {
    if Named(s, names) == names {
      assert |s| == |names|;
      forall i | 0 <= i < |s| ensures s[i] == i {
        assert s[i] in s;
        assert Named(s, names)[i] == names[i];
        var j := s[i];
        assert names[j] == names[i];
        assert !(j < i) && !(i < j);
      }
    }
  }

  /** The ids under parent `q`, in order. */
  function Sibs(f: Forest<Item>, q: int): seq<int> {
    if q == TOP then Tops(f) else Tops(Kids(f, q))
  }

  lemma {:induction false} TopsUnder<T>(f: Forest<T>, parent: int, pos: int, t: Forest<T>)
    requires Single(t)
    ensures Tops(InsertUnder(f, parent, pos, t)) == Tops(f)
  {
    if f.Cons? { TopsUnder(f.rest, parent, pos, t); }
  }

  lemma {:induction false} KidsAt<T>(f: Forest<T>, parent: int, pos: int, t: Forest<T>)
    requires Single(t) && Wf(f) && Ids(f) !! Ids(t) && parent in Ids(f)
    ensures Kids(InsertUnder(f, parent, pos, t), parent) == InsertHere(Kids(f, parent), pos, t)
  {
    if f.id != parent {
      if parent in Ids(f.kids) {
        KidsAt(f.kids, parent, pos, t);
        InsertUnderIds(f.kids, parent, pos, t);
      } else {
        KidsAt(f.rest, parent, pos, t);
        InsertUnderAbsent(f.kids, parent, pos, t);
        InsertUnderIds(f.rest, parent, pos, t);
      }
    }
  }

  /** A tree put in changes the list it is put into, and no other. */
  lemma {:induction false} SibsInsert(f: Forest<Item>, parent: int, pos: nat, t: Forest<Item>, q: int)
    requires Single(t) && Wf(f) && Ids(f) !! Ids(t) && TOP !in Ids(f)
    requires (parent == TOP || parent in Ids(f)) && (q == TOP || q in Ids(f))
    ensures Sibs(Insert(f, parent, pos, t), q) == if q == parent then InsertAt(Sibs(f, q), pos, t.id) else Sibs(f, q)
  {
    if parent == TOP {
      TopsInsert(f, pos, t);
      if q != TOP { KidsHere(f, pos, t, q); }
    } else {
      TopsUnder(f, parent, pos, t);
      if q == parent {
        KidsAt(f, parent, pos, t);
        TopsInsert(Kids(f, parent), pos, t);
      } else if q != TOP {
        KidsUnder(f, parent, pos, t, q);
        TopsUnder(Kids(f, q), parent, pos, t);
      }
    }
  }

  lemma {:induction false} SibsRemove(f: Forest<Item>, x: int, q: int)
    requires Wf(f) && TOP !in Ids(f) && (q == TOP || q in Ids(Remove(f, x)))
    ensures Sibs(Remove(f, x), q) == Others(Sibs(f, q), [x])
  {
    if q == TOP {
      TopsRemove(f, x);
    } else {
      SubRemove(f, x, q);
      KidsWf(f, q);
      TopsRemove(Kids(f, q), x);
    }
  }

  lemma {:induction false} SibsPrune(f: Forest<Item>, xs: seq<int>, q: int)
    requires Wf(f) && TOP !in Ids(f) && (q == TOP || q in Ids(Prune(f, xs)))
    ensures Sibs(Prune(f, xs), q) == Others(Sibs(f, q), xs)
    decreases |xs|
  {
    if xs == [] {
      OthersEmpty(Sibs(f, q));
    } else {
      RemoveIds(f, xs[0]);
      SibsPrune(Remove(f, xs[0]), xs[1..], q);
      if q != TOP { PrunedIds(Remove(f, xs[0]), xs[1..], q); }
      SibsRemove(f, xs[0], q);
      OthersTwice(Sibs(f, q), xs[0], xs[1..]);
      assert xs == [xs[0]] + xs[1..];
    }
  }

  lemma {:induction false} SibsDistinct(f: Forest<Item>, q: int)
    requires Wf(f)
    ensures Distinct(Sibs(f, q))
  {
    KidsWf(f, q);
    TopsDistinct(f);
    TopsDistinct(Kids(f, q));
  }

  /** A node is in the list of its parent, at its position. */
  lemma {:induction false} SibsAt(f: Forest<Item>, x: int)
    requires Wf(f) && TOP !in Ids(f) && x in Ids(f)
    ensures var q := ParentOf(f, x, TOP); PositionOf(f, x) < |Sibs(f, q)| && Sibs(f, q)[PositionOf(f, x)] == x
  {
    ParentFacts(f, x, TOP);
    if AtTop(f, x) { TopIndex(f, x); } else { KidsPosition(f, x, TOP); }
  }

  lemma {:induction false} KidsPosition(f: Forest<Item>, x: int, above: int)
    requires Wf(f) && above !in Ids(f) && x in Ids(f) && !AtTop(f, x)
    ensures var q := ParentOf(f, x, above);
            && q in Ids(f) && PositionOf(f, x) < |Tops(Kids(f, q))| && Tops(Kids(f, q))[PositionOf(f, x)] == x
  {
    if x in Ids(f.kids) {
      TopOnly(f, x);
      ParentFacts(f.kids, x, f.id);
      if AtTop(f.kids, x) { TopIndex(f.kids, x); } else { KidsPosition(f.kids, x, f.id); }
    } else {
      ParentFacts(f.rest, x, above);
      KidsPosition(f.rest, x, above);
    }
  }

  lemma {:induction false} SibsParent(f: Forest<Item>, q: int, v: nat)
    requires Wf(f) && TOP !in Ids(f) && (q == TOP || q in Ids(f)) && v < |Sibs(f, q)|
    ensures Sibs(f, q)[v] in Ids(f) && ParentOf(f, Sibs(f, q)[v], TOP) == q
  {
    if q == TOP {
      TopsIn(f, v);
      ParentFacts(f, Tops(f)[v], TOP);
    } else {
      KidsParent(f, q, v, TOP);
    }
  }

  lemma {:induction false} KidsParent(f: Forest<Item>, q: int, v: nat, above: int)
    requires Wf(f) && above !in Ids(f) && q in Ids(f) && v < |Tops(Kids(f, q))|
    ensures var x := Tops(Kids(f, q))[v]; x in Ids(f) && ParentOf(f, x, above) == q
  {
    if f.id == q {
      TopsIn(f.kids, v);
      ParentFacts(f.kids, Tops(f.kids)[v], q);
    } else if q in Ids(f.kids) {
      KidsParent(f.kids, q, v, f.id);
    } else {
      KidsParent(f.rest, q, v, above);
    }
  }

  lemma {:induction false} TopsRenamed<T>(f: Forest<T>, pairs: seq<(int, int)>)
    ensures Tops(Rename(f, pairs)) == NewIds(Tops(f), pairs)
  {
    if f.Cons? {
      TopsRenamed(f.rest, pairs);
      assert NewIds([f.id] + Tops(f.rest), pairs) == [Subst(f.id, pairs)] + NewIds(Tops(f.rest), pairs) by {
        assert ([f.id] + Tops(f.rest))[1..] == Tops(f.rest);
      }
    }
  }

  lemma {:induction false} SibsRenamed(f: Forest<Item>, q: int, pairs: seq<(int, int)>, n: nat)
    requires Injective(pairs, n) && Bounded(f, n) && q <= n && Subst(q, pairs) == q
    ensures Sibs(Rename(f, pairs), q) == NewIds(Sibs(f, q), pairs)
  {
    if q == TOP {
      TopsRenamed(f, pairs);
    } else {
      RenameRemove(f, q, pairs, n);
      TopsRenamed(Kids(f, q), pairs);
    }
  }

  // ---------------------------------------------------------------- a forest is its sibling lists

  /** Every node of `g` has the data and the list of children it has in `w`. */
  ghost predicate Obeys(g: Forest<Item>, w: Forest<Item>) {
    g.Cons? ==>
      && g.id in Ids(w) && g.item == ItemOf(w, g.id) && Tops(g.kids) == Tops(Kids(w, g.id))
      && Obeys(g.kids, w) && Obeys(g.rest, w)
  }

  lemma {:induction false} Determined(a: Forest<Item>, b: Forest<Item>, w: Forest<Item>)
    requires Obeys(a, w) && Obeys(b, w) && Tops(a) == Tops(b)
    ensures a == b
    decreases a
  {
    if a.Cons? {
      assert Tops(a)[0] == Tops(b)[0] && Tops(a)[1..] == Tops(a.rest) && Tops(b)[1..] == Tops(b.rest);
      Determined(a.kids, b.kids, w);
      Determined(a.rest, b.rest, w);
    }
  }

  /** A node's data and list of children in `g` are those in `w`. */
  ghost predicate SameNode(g: Forest<Item>, w: Forest<Item>, p: int) {
    p in Ids(g) && p in Ids(w) && ItemOf(g, p) == ItemOf(w, p) && Tops(Kids(g, p)) == Tops(Kids(w, p))
  }

  lemma {:induction false} ObeysAll(g: Forest<Item>, w: Forest<Item>)
    requires Wf(g) && forall p :: p in Ids(g) ==> SameNode(g, w, p)
    ensures Obeys(g, w)
    decreases g
  {
    if g.Cons? {
      assert SameNode(g, w, g.id);
      forall p | p in Ids(g.kids) ensures SameNode(g.kids, w, p) { assert SameNode(g, w, p); }
      forall p | p in Ids(g.rest) ensures SameNode(g.rest, w, p) { assert SameNode(g, w, p); }
      ObeysAll(g.kids, w);
      ObeysAll(g.rest, w);
    }
  }

  /** Forests with the same nodes' data and the same sibling lists are equal. */
  lemma {:induction false} SameForest(g: Forest<Item>, w: Forest<Item>)
    requires Wf(g) && Wf(w) && Tops(g) == Tops(w) && forall p :: p in Ids(g) ==> SameNode(g, w, p)
    ensures g == w
  {
    ObeysAll(g, w);
    forall p | p in Ids(w) ensures SameNode(w, w, p) {}
    ObeysAll(w, w);
    Determined(g, w, w);
  }

  // ---------------------------------------------------------------- which items are under which parent

  /** Those of `xs` whose parent is `q`. */
  function With(f: Forest<Item>, xs: seq<int>, q: int): (r: seq<int>)
    ensures |r| <= |xs| && forall x :: x in r <==> x in xs && ParentOf(f, x, TOP) == q
  {
    if xs == [] then []
    else
      var r := With(f, xs[1..], q);
      assert xs == [xs[0]] + xs[1..];
      if ParentOf(f, xs[0], TOP) == q then [xs[0]] + r else r
  }

  lemma {:induction false} WithDistinct(f: Forest<Item>, xs: seq<int>, q: int)
    requires Distinct(xs)
    ensures Distinct(With(f, xs, q))
  {
    if xs != [] {
      var r := With(f, xs[1..], q);
      forall i, j | 0 <= i < j < |xs[1..]| ensures xs[1..][i] != xs[1..][j] { assert xs[i + 1] != xs[j + 1]; }
      WithDistinct(f, xs[1..], q);
      forall i | 0 <= i < |r| ensures r[i] != xs[0] {
        assert r[i] in r;
        var j :| 0 <= j < |xs[1..]| && xs[1..][j] == r[i];
        assert xs[0] != xs[j + 1];
      }
    }
  }

  /** Where each of them was among its siblings. */
  function Places(f: Forest<Item>, xs: seq<int>): (r: seq<nat>)
    ensures |r| == |xs| && forall k :: 0 <= k < |r| ==> r[k] == PositionOf(f, xs[k])
  {
    seq(|xs|, k requires 0 <= k < |xs| => PositionOf(f, xs[k]))
  }

  lemma {:induction false} PlacesSelect(f: Forest<Item>, xs: seq<int>, q: int)
    requires Wf(f) && TOP !in Ids(f) && Selected(f, xs)
    ensures var ps := Places(f, With(f, xs, q)); var m := |Sibs(f, q)|;
            && Selection(m, ps)
            && forall v: nat :: v < m && (q == TOP || q in Ids(f)) ==> (v in ps <==> Sibs(f, q)[v] in xs)
  {
    var ys, tops := With(f, xs, q), Sibs(f, q);
    var ps := Places(f, ys);
    WithDistinct(f, xs, q);
    SibsDistinct(f, q);
    forall k | 0 <= k < |ys| ensures ys[k] in xs && ps[k] < |tops| && tops[ps[k]] == ys[k] {
      assert ys[k] in ys;
      var i :| 0 <= i < |xs| && xs[i] == ys[k];
      SibsAt(f, ys[k]);
    }
    forall v: nat | v < |tops| && (q == TOP || q in Ids(f)) ensures v in ps <==> tops[v] in xs {
      SibsParent(f, q, v);
      if tops[v] in xs {
        var k :| 0 <= k < |ys| && ys[k] == tops[v];
        var u := ps[k];
        assert tops[u] == tops[v];
        assert !(u < v) && !(v < u);
      }
    }
  }

  /** The items recorded under `q` fit, one after another, into the list they came from. */
  predicate AllFit(f: Forest<Item>, xs: seq<int>, q: int) {
    var ps := Places(f, With(f, xs, q));
    forall k :: 0 <= k < |ps| ==> Fits(|Sibs(f, q)|, ps, k)
  }

  // ---------------------------------------------------------------- rebuilding at positions noted beforehand

  /** What undo makes of a deletion of unrelated items, from the `k`th on, when positions were noted beforehand. */
  function Returned(f: Forest<Item>, xs: seq<int>, n: nat, k: nat): Doc
    requires AllIn(f, xs) && k <= |xs|
  {
    Regrown(Doc(Prune(f, xs), n), RecordEach(f, xs)[k..])
  }

  lemma {:induction false} ReturnedStep(f: Forest<Item>, xs: seq<int>, n: nat, k: nat, t: Forest<Item>)
    requires Wf(f) && AllIn(f, xs) && k < |xs| && t == Freshen(Sub(f, xs[k]), Returned(f, xs, n, k + 1).maxId)
    ensures var g := Returned(f, xs, n, k + 1);
            && Single(t)
            && Returned(f, xs, n, k)
               == Doc(Insert(g.forest, ParentOf(f, xs[k], TOP), PositionOf(f, xs[k]), t), g.maxId + Size(t))
  {
    var list := RecordEach(f, xs);
    assert list[k..][0] == Record(f, xs[k]) && list[k..][1..] == list[k + 1..];
    RemoveIds(f, xs[k]);
    EraseFacts(Sub(f, xs[k]));
    FreshenErased(Sub(f, xs[k]), Returned(f, xs, n, k + 1).maxId);
  }

  /** The renaming of one tree, as a part of the whole. */
  lemma {:induction false} TreeRenaming(f: Forest<Item>, xs: seq<int>, n: nat, k: nat, done: seq<int>)
    requires Wf(f) && Renamable(Trees(f, xs), n) && k < |xs| && xs[k] in Ids(f) && done == Trees(f, xs[k + 1..])
    ensures Freshen(Sub(f, xs[k]), n + |done|) == Rename(Sub(f, xs[k]), Pairs(Trees(f, xs), n))
    ensures Subst(xs[k], Pairs(Trees(f, xs), n)) == n + |done| + 1
  {
    var order := Order(Sub(f, xs[k]));
    assert xs[k..][0] == xs[k] && xs[k..][1..] == xs[k + 1..];
    assert Trees(f, xs[k..]) == done + order;
    TreesFrom(f, xs, n, k);
    LastTree(Sub(f, xs[k]), done, n);
    RemoveIds(f, xs[k]);
    OrderIds(Sub(f, xs[k]));
    forall y | y in Ids(Sub(f, xs[k])) ensures Subst(y, Pairs(done + order, n)) == Subst(y, Pairs(Trees(f, xs), n)) {
      TreesPrefix(f, xs, n, k, y);
    }
    SameRenaming(Sub(f, xs[k]), Pairs(done + order, n), Pairs(Trees(f, xs), n));
  }

  /** Each tree comes back under the ids the renaming gives it. */
  lemma {:induction false} ReturnedTree(f: Forest<Item>, xs: seq<int>, n: nat, k: nat)
    requires Fresh(f, xs, n) && k < |xs| && AllIn(f, xs)
    ensures Freshen(Sub(f, xs[k]), Returned(f, xs, n, k + 1).maxId) == Rename(Sub(f, xs[k]), Renamings(f, xs, n))
    ensures Subst(xs[k], Renamings(f, xs, n)) == Returned(f, xs, n, k + 1).maxId + 1
  {
    ReturnedMax(f, xs, n, k + 1);
    OldsBounded(f, xs, n);
    OldsTrees(f, xs);
    TreeRenaming(f, xs, n, k, Trees(f, xs[k + 1..]));
  }

  lemma {:induction false} TreesFrom(f: Forest<Item>, xs: seq<int>, n: nat, k: nat)
    requires Renamable(Trees(f, xs), n) && k <= |xs|
    ensures Renamable(Trees(f, xs[k..]), n)
  {
    if k == 0 {
      assert xs[0..] == xs;
    } else {
      TreesFrom(f, xs, n, k - 1);
      assert xs[k - 1..][1..] == xs[k..] && xs[k - 1..][0] == xs[k - 1];
      RenamableParts(Trees(f, xs[k..]), Order(Sub(f, xs[k - 1])), n);
    }
  }

  lemma {:induction false} TreesPrefix(f: Forest<Item>, xs: seq<int>, n: nat, k: nat, y: int)
    requires Renamable(Trees(f, xs), n) && k <= |xs| && y in Trees(f, xs[k..])
    ensures y in Trees(f, xs) && Subst(y, Pairs(Trees(f, xs[k..]), n)) == Subst(y, Pairs(Trees(f, xs), n))
  {
    if k == 0 {
      assert xs[0..] == xs;
    } else {
      assert xs[k - 1..][1..] == xs[k..] && xs[k - 1..][0] == xs[k - 1];
      TreesFrom(f, xs, n, k - 1);
      SubstPrefix(Trees(f, xs[k..]), Order(Sub(f, xs[k - 1])), n, y);
      TreesPrefix(f, xs, n, k - 1, y);
    }
  }

  lemma {:induction false} ReturnedMax(f: Forest<Item>, xs: seq<int>, n: nat, k: nat)
    requires Wf(f) && AllIn(f, xs) && k <= |xs|
    ensures Returned(f, xs, n, k).maxId == n + |Trees(f, xs[k..])|
    decreases |xs| - k
  {
    if k == |xs| {
      assert RecordEach(f, xs)[k..] == [] && xs[k..] == [];
    } else {
      ReturnedMax(f, xs, n, k + 1);
      var t := Freshen(Sub(f, xs[k]), Returned(f, xs, n, k + 1).maxId);
      ReturnedStep(f, xs, n, k, t);
      FreshenShape(Sub(f, xs[k]), Returned(f, xs, n, k + 1).maxId);
      assert xs[k..][0] == xs[k] && xs[k..][1..] == xs[k + 1..];
    }
  }

  // ---------------------------------------------------------------- what comes back, list by list

  /** Below a restored node everything has a new id. */
  lemma {:induction false} NewBelow(f: Forest<Item>, xs: seq<int>, n: nat, p: int, x: int)
    requires Fresh(f, xs, n)
    requires p in Ids(Rename(f, Renamings(f, xs, n))) && p !in Ids(Prune(f, xs))
    requires x in Ids(Kids(Rename(f, Renamings(f, xs, n)), p))
    ensures x > n
  {
    var pairs := Renamings(f, xs, n);
    OldsBounded(f, xs, n);
    OldsFacts(f, xs);
    Simultaneous(Olds(f, xs), n);
    OldsTrees(f, xs);
    var y := RenameFrom(f, pairs, p);
    RenameRemove(f, y, pairs, n);
    assert Kids(Rename(f, pairs), p) == Rename(Kids(f, y), pairs);
    var z := RenameFrom(Kids(f, y), pairs, x);
    RemoveIds(f, y);
    assert z in Ids(Sub(f, y));
    assert y in Olds(f, xs);
    OldsClosed(f, xs, y, z);
    var i :| 0 <= i < |Olds(f, xs)| && Olds(f, xs)[i] == z;
  }

  lemma {:induction false} InTrees(f: Forest<Item>, xs: seq<int>, y: int) returns (k: nat)
    requires y in Trees(f, xs)
    ensures k < |xs| && y in Ids(Sub(f, xs[k]))
  {
    OrderIds(Sub(f, xs[0]));
    if y in Order(Sub(f, xs[0])) {
      k := 0;
    } else {
      k := InTrees(f, xs[1..], y);
      k := k + 1;
    }
  }

  lemma {:induction false} TreesIn(f: Forest<Item>, xs: seq<int>, k: nat, y: int)
    requires k < |xs| && y in Ids(Sub(f, xs[k]))
    ensures y in Trees(f, xs)
  {
    OrderIds(Sub(f, xs[0]));
    if k > 0 { TreesIn(f, xs[1..], k - 1, y); }
  }

  lemma {:induction false} OldsClosed(f: Forest<Item>, xs: seq<int>, y: int, z: int)
    requires Wf(f) && TOP !in Ids(f) && Apart(f, xs) && y in Olds(f, xs) && z in Ids(Sub(f, y))
    ensures z in Olds(f, xs)
  {
    OldsTrees(f, xs);
    var k := InTrees(f, xs, y);
    if y != xs[k] { TreeInside(f, xs[k], y); }
    TreesIn(f, xs, k, z);
  }

  /** A restored tree has its nodes as the renamed forest has them. */
  lemma {:induction false} TreeInWhole(f: Forest<Item>, x: int, pairs: seq<(int, int)>, n: nat, p: int)
    requires Wf(f) && Bounded(f, n) && Injective(pairs, n) && x in Ids(f) && p in Ids(Rename(Sub(f, x), pairs))
    ensures var w, t := Rename(f, pairs), Rename(Sub(f, x), pairs);
            p in Ids(w) && ItemOf(w, p) == ItemOf(t, p) && Kids(w, p) == Kids(t, p)
  {
    var w, t := Rename(f, pairs), Rename(Sub(f, x), pairs);
    var y := RenameFrom(Sub(f, x), pairs, p);
    SubIn(f, x);
    SubSub(f, x, y);
    RenameMember(f, pairs, n, y);
    RenameRemove(f, y, pairs, n);
    SubBound(f, x, n);
    RenameRemove(Sub(f, x), y, pairs, n);
    assert Sub(w, p) == Sub(t, p);
    SubItem(w, p);
    SubItem(t, p);
  }

  lemma {:induction false} SubBound(f: Forest<Item>, x: int, n: nat)
    requires Wf(f) && Bounded(f, n)
    ensures Bounded(Sub(f, x), n)
  {
    SubIn(f, x);
  }

  /** So far rebuilt: every node as in the renamed forest, but for the children of nodes that were kept. */
  ghost predicate PartWay(h: Forest<Item>, g: Forest<Item>, w: Forest<Item>, p: int) {
    p in Ids(g) ==> p in Ids(w) && ItemOf(g, p) == ItemOf(w, p) && (p !in Ids(h) ==> Kids(g, p) == Kids(w, p))
  }

  ghost predicate AllPartWay(h: Forest<Item>, g: Doc, w: Forest<Item>) {
    Wf(g.forest) && Bounded(g.forest, g.maxId) && Ids(h) <= Ids(g.forest) && forall p :: PartWay(h, g.forest, w, p)
  }

  lemma {:induction false} PartStart(f: Forest<Item>, xs: seq<int>, n: nat)
    requires Fresh(f, xs, n)
    ensures AllPartWay(Prune(f, xs), Doc(Prune(f, xs), n), Rename(f, Renamings(f, xs, n)))
  {
    var h, pairs := Prune(f, xs), Renamings(f, xs, n);
    RenamingFacts(f, xs, n);
    OldsFacts(f, xs);
    forall p | p in Ids(h) ensures p in Ids(Rename(f, pairs)) && ItemOf(h, p) == ItemOf(Rename(f, pairs), p) {
      PruneItem(f, xs, p);
      RenameMember(f, pairs, n, p);
      RenameUpdate(f, p, ItemOf(f, p), pairs, n);
    }
  }

  lemma {:induction false} PruneItem(f: Forest<Item>, xs: seq<int>, p: int)
    requires Wf(f) && p in Ids(Prune(f, xs))
    ensures p in Ids(f) && ItemOf(Prune(f, xs), p) == ItemOf(f, p)
    decreases |xs|
  {
    if xs != [] {
      RemoveIds(f, xs[0]);
      PruneItem(Remove(f, xs[0]), xs[1..], p);
      SubRemove(f, xs[0], p);
    }
  }

  /** Putting in one more tree, under a kept node or at the top. */
  lemma {:induction false} PartInsert(h: Forest<Item>, g: Doc, w: Forest<Item>, parent: int, pos: nat, t: Forest<Item>,
                                      n: nat)
    requires AllPartWay(h, g, w) && Single(t) && Wf(t) && Ids(g.forest) !! Ids(t) && TOP !in Ids(g.forest)
    requires (parent == TOP || parent in Ids(h)) && parent <= n
    requires forall p :: p in Ids(t) ==> p in Ids(w) && ItemOf(t, p) == ItemOf(w, p) && Kids(t, p) == Kids(w, p)
    requires forall p, x :: p in Ids(w) && p !in Ids(h) && x in Ids(Kids(w, p)) ==> x > n
    requires forall p :: p in Ids(t) ==> 0 < p <= g.maxId + Size(t)
    ensures AllPartWay(h, Doc(Insert(g.forest, parent, pos, t), g.maxId + Size(t)), w)
  {
    var f := g.forest;
    InsertIds(f, parent, pos, t);
    forall p ensures PartWay(h, Insert(f, parent, pos, t), w, p) {
      assert PartWay(h, f, w, p);
      if p in Ids(f) {
        if parent == TOP {
          KidsHere(f, pos, t, p);
        } else {
          KidsUnder(f, parent, pos, t, p);
          if p !in Ids(h) { InsertUnderAbsent(Kids(f, p), parent, pos, t); }
        }
      } else if p in Ids(t) {
        NewNodes(f, parent, pos, t, p);
      }
    }
  }

  lemma {:induction false} NewNodes(f: Forest<Item>, parent: int, pos: nat, t: Forest<Item>, p: int)
    requires Single(t) && Wf(f) && Wf(t) && Ids(f) !! Ids(t) && p in Ids(t)
    ensures p in Ids(Insert(f, parent, pos, t)) && ItemOf(Insert(f, parent, pos, t), p) == ItemOf(t, p)
    ensures Kids(Insert(f, parent, pos, t), p) == Kids(t, p)
  {
    NewHere(f, pos, t, p);
    if parent in Ids(f) { NewUnder(f, parent, pos, t, p); }
  }

  lemma {:induction false} NewHere(f: Forest<Item>, pos: int, t: Forest<Item>, p: int)
    requires Single(t) && Ids(f) !! Ids(t) && p in Ids(t)
    ensures p in Ids(InsertHere(f, pos, t)) && ItemOf(InsertHere(f, pos, t), p) == ItemOf(t, p)
    ensures Kids(InsertHere(f, pos, t), p) == Kids(t, p)
  {
    if f.Cons? && pos > 0 {
      NewHere(f.rest, pos - 1, t, p);
    } else if f.Cons? {
      assert Ids(t) == {t.id} + Ids(t.kids) + Ids(t.rest) && Ids(t.rest) == {};
    }
  }

  lemma {:induction false} NewUnder(f: Forest<Item>, parent: int, pos: int, t: Forest<Item>, p: int)
    requires Single(t) && Wf(f) && Ids(f) !! Ids(t) && p in Ids(t) && parent in Ids(f)
    ensures p in Ids(InsertUnder(f, parent, pos, t)) && ItemOf(InsertUnder(f, parent, pos, t), p) == ItemOf(t, p)
    ensures Kids(InsertUnder(f, parent, pos, t), p) == Kids(t, p)
  {
    if f.id == parent {
      NewHere(f.kids, pos, t, p);
    } else if parent in Ids(f.kids) {
      NewUnder(f.kids, parent, pos, t, p);
      InsertUnderAbsent(f.rest, parent, pos, t);
    } else {
      NewUnder(f.rest, parent, pos, t, p);
      InsertUnderAbsent(f.kids, parent, pos, t);
    }
  }

  lemma {:induction false} ParentStays(f: Forest<Item>, xs: seq<int>, n: nat, k: nat)
    requires Fresh(f, xs, n) && k < |xs|
    ensures var q := ParentOf(f, xs[k], TOP); q <= n && (q == TOP || q in Ids(Prune(f, xs)))
  {
    OldsBounded(f, xs, n);
    OldsFacts(f, xs);
    ParentIn(f, xs[k], TOP);
    ParentKept(f, xs, k);
    var q := ParentOf(f, xs[k], TOP);
    assert q == TOP || q in Ids(f);
  }

  lemma {:induction false} PartStep(f: Forest<Item>, xs: seq<int>, n: nat, k: nat)
    requires Fresh(f, xs, n) && AllIn(f, xs) && k < |xs|
    requires AllPartWay(Prune(f, xs), Returned(f, xs, n, k + 1), Rename(f, Renamings(f, xs, n)))
    ensures AllPartWay(Prune(f, xs), Returned(f, xs, n, k), Rename(f, Renamings(f, xs, n)))
  {
    var h, g, pairs := Prune(f, xs), Returned(f, xs, n, k + 1), Renamings(f, xs, n);
    var w, t := Rename(f, pairs), Freshen(Sub(f, xs[k]), g.maxId);
    ReturnedStep(f, xs, n, k, t);
    ReturnedTree(f, xs, n, k);
    RenamingFacts(f, xs, n);
    ParentStays(f, xs, n, k);
    FreshenBeyond(Sub(f, xs[k]), g.maxId, g.forest);
    forall p | p in Ids(t) ensures p in Ids(w) && ItemOf(t, p) == ItemOf(w, p) && Kids(t, p) == Kids(w, p) {
      TreeInWhole(f, xs[k], pairs, n, p);
    }
    forall p, x | p in Ids(w) && p !in Ids(h) && x in Ids(Kids(w, p)) ensures x > n { NewBelow(f, xs, n, p, x); }
    PartInsert(h, g, w, ParentOf(f, xs[k], TOP), PositionOf(f, xs[k]), t, n);
  }

  lemma {:induction false} PartDown(f: Forest<Item>, xs: seq<int>, n: nat, k: nat)
    requires Fresh(f, xs, n) && AllIn(f, xs) && k <= |xs|
    ensures AllPartWay(Prune(f, xs), Returned(f, xs, n, k), Rename(f, Renamings(f, xs, n)))
    decreases |xs| - k
  {
    if k == |xs| {
      PartStart(f, xs, n);
      assert RecordEach(f, xs)[k..] == [];
    } else {
      PartDown(f, xs, n, k + 1);
      PartStep(f, xs, n, k);
    }
  }

  /** The list under `q` once the items from the `k`th on are back, its members named by their positions before. */
  ghost predicate ListBack(f: Forest<Item>, xs: seq<int>, n: nat, k: nat, q: int)
    requires AllIn(f, xs) && k <= |xs|
  {
    var ps := Places(f, With(f, xs, q));
    Sibs(Returned(f, xs, n, k).forest, q)
      == Named(PutBack(Kept(|Sibs(f, q)|, ps), Places(f, With(f, xs[k..], q))), NewIds(Sibs(f, q), Renamings(f, xs, n)))
  }

  lemma {:induction false} ListStart(f: Forest<Item>, xs: seq<int>, n: nat, q: int)
    requires Fresh(f, xs, n) && AllIn(f, xs) && (q == TOP || q in Ids(Prune(f, xs)))
    ensures ListBack(f, xs, n, |xs|, q)
  {
    var m, ps, tops, pairs := |Sibs(f, q)|, Places(f, With(f, xs, q)), Sibs(f, q), Renamings(f, xs, n);
    OldsBounded(f, xs, n);
    OldsFacts(f, xs);
    RenamingFacts(f, xs, n);
    SibsPrune(f, xs, q);
    PlacesSelect(f, xs, q);
    assert RecordEach(f, xs)[|xs|..] == [] && xs[|xs|..] == [];
    forall v: nat | v < m ensures (v in ps <==> tops[v] in xs) && (v !in ps ==> NewIds(tops, pairs)[v] == tops[v]) {
      NewIdsAt(tops, pairs, v);
      if tops[v] !in xs { KeptSibling(f, xs, q, v); }
    }
    KeptNamed(m, ps, xs, NewIds(tops, pairs), tops);
    assert tops[..m] == tops;
  }

  /** A sibling of deleted items that is not itself among them is kept. */
  lemma {:induction false} KeptSibling(f: Forest<Item>, xs: seq<int>, q: int, v: nat)
    requires Wf(f) && TOP !in Ids(f) && (q == TOP || q in Ids(Prune(f, xs))) && v < |Sibs(f, q)| && Sibs(f, q)[v] !in xs
    ensures Sibs(f, q)[v] in Ids(Prune(f, xs))
  {
    SibsPrune(f, xs, q);
    var x := Sibs(f, q)[v];
    OthersKeep(Sibs(f, q), xs, x);
    var i: nat :| i < |Sibs(Prune(f, xs), q)| && Sibs(Prune(f, xs), q)[i] == x;
    if q != TOP { PrunedIds(f, xs, q); }
    PrunedIds(f, xs, TOP);
    SibsParent(Prune(f, xs), q, i);
  }

  lemma {:induction false} OthersKeep(s: seq<int>, xs: seq<int>, x: int)
    requires x in s && x !in xs
    ensures x in Others(s, xs)
  {
    if s[0] != x { OthersKeep(s[1..], xs, x); }
  }

  lemma {:induction false} ListStep(f: Forest<Item>, xs: seq<int>, n: nat, k: nat, q: int)
    requires Fresh(f, xs, n) && AllIn(f, xs) && k < |xs| && (q == TOP || q in Ids(Prune(f, xs)))
    requires ListBack(f, xs, n, k + 1, q)
    ensures ListBack(f, xs, n, k, q)
  {
    var g, x, tops, pairs := Returned(f, xs, n, k + 1), xs[k], Sibs(f, q), Renamings(f, xs, n);
    var t := Freshen(Sub(f, x), g.maxId);
    ReturnedStep(f, xs, n, k, t);
    ReturnedTree(f, xs, n, k);
    ParentStays(f, xs, n, k);
    PartDown(f, xs, n, k + 1);
    FreshenBeyond(Sub(f, x), g.maxId, g.forest);
    SibsInsert(g.forest, ParentOf(f, x, TOP), PositionOf(f, x), t, q);
    assert xs[k..][0] == x && xs[k..][1..] == xs[k + 1..];
    if ParentOf(f, x, TOP) == q {
      var ps, ys := Places(f, With(f, xs, q)), With(f, xs[k + 1..], q);
      SibsAt(f, x);
      NewIdsAt(tops, pairs, PositionOf(f, x));
      PlacesCons(f, x, ys);
      NamedInsert(PutBack(Kept(|tops|, ps), Places(f, ys)), PositionOf(f, x), PositionOf(f, x), NewIds(tops, pairs));
    }
  }

  lemma {:induction false} PlacesCons(f: Forest<Item>, x: int, ys: seq<int>)
    ensures Places(f, [x] + ys) == [PositionOf(f, x)] + Places(f, ys)
    ensures Places(f, [x] + ys)[0] == PositionOf(f, x) && Places(f, [x] + ys)[1..] == Places(f, ys)
  {
  }

  lemma {:induction false} ListOne(f: Forest<Item>, xs: seq<int>, n: nat, k: nat, k1: nat, q: int)
    requires Fresh(f, xs, n) && AllIn(f, xs) && k < |xs| && k1 == k + 1
    requires (q == TOP || q in Ids(Prune(f, xs))) && ListBack(f, xs, n, k1, q)
    ensures ListBack(f, xs, n, k, q)
  {
    ListStep(f, xs, n, k, q);
  }

  lemma {:induction false} ListDown(f: Forest<Item>, xs: seq<int>, n: nat, k: nat, from: nat, q: int)
    requires Fresh(f, xs, n) && AllIn(f, xs) && k <= from <= |xs| && (q == TOP || q in Ids(Prune(f, xs)))
    requires ListBack(f, xs, n, from, q)
    ensures ListBack(f, xs, n, k, q)
    decreases from
  {
    if k < from {
      var j: nat := from - 1;
      ListOne(f, xs, n, j, from, q);
      ListDown(f, xs, n, k, j, q);
    }
  }

  lemma {:induction false} NamesInOrder(m: nat, ps: seq<nat>, names: seq<int>)
    requires Selection(m, ps) && |names| == m && Distinct(names)
    ensures Named(PutBack(Kept(m, ps), ps), names) == names <==> forall k :: 0 <= k < |ps| ==> Fits(m, ps, k)
  {
    var s := PutBack(Kept(m, ps), ps);
    KeptFacts(m, ps);
    forall v: nat | v in s ensures v < m { PutBackMembers(Kept(m, ps), ps, v); }
    NamedOrder(s, names);
    PutBackExact(m, ps);
  }

  /**
    Under each parent that was kept, the siblings are back in order precisely when all
    entries recorded under it fit.
  */
  lemma {:induction false} ListExact(f: Forest<Item>, xs: seq<int>, n: nat, q: int)
    requires Fresh(f, xs, n) && AllIn(f, xs) && (q == TOP || q in Ids(Prune(f, xs)))
    ensures Sibs(Returned(f, xs, n, 0).forest, q) == Sibs(Rename(f, Renamings(f, xs, n)), q) <==> AllFit(f, xs, q)
  {
    var ps, tops, pairs := Places(f, With(f, xs, q)), Sibs(f, q), Renamings(f, xs, n);
    assert xs[0..] == xs;
    ListStart(f, xs, n, q);
    ListDown(f, xs, n, 0, |xs|, q);
    PlacesSelect(f, xs, q) by { OldsBounded(f, xs, n); }
    RenamingFacts(f, xs, n);
    QFixed(f, xs, n, q);
    SibsRenamed(f, q, pairs, n);
    NamesDistinct(f, q, pairs, n);
    NamesInOrder(|tops|, ps, NewIds(tops, pairs));
  }

  lemma {:induction false} QFixed(f: Forest<Item>, xs: seq<int>, n: nat, q: int)
    requires Fresh(f, xs, n) && (q == TOP || q in Ids(Prune(f, xs)))
    ensures q <= n && Subst(q, Renamings(f, xs, n)) == q && (q == TOP || q in Ids(f))
  {
    OldsBounded(f, xs, n);
    OldsFacts(f, xs);
    Untouched(q, Olds(f, xs), n);
  }

  lemma {:induction false} NamesDistinct(f: Forest<Item>, q: int, pairs: seq<(int, int)>, n: nat)
    requires Wf(f) && Bounded(f, n) && Injective(pairs, n) && (q == TOP || q in Ids(f))
    ensures Distinct(NewIds(Sibs(f, q), pairs))
  {
    var tops := Sibs(f, q);
    SibsDistinct(f, q);
    forall i, j | 0 <= i < j < |tops| ensures NewIds(tops, pairs)[i] != NewIds(tops, pairs)[j] {
      NewIdsAt(tops, pairs, i);
      NewIdsAt(tops, pairs, j);
      assert TOP !in Ids(f);
      SibsParent(f, q, i);
      SibsParent(f, q, j);
    }
  }

  /**
    Deleting items whose positions were all noted beforehand, under any parents,
    and undoing it, gives the original forest back, deleted trees under their new
    ids and nothing else changed, precisely when under each parent, for each entry,
    either all entries listed before it lie after it, or all siblings after it are
    listed before it.
  */
  lemma {:induction false} UpFrontExact(f: Forest<Item>, xs: seq<int>, n: nat)
    requires Fresh(f, xs, n) && AllIn(f, xs)
    ensures Regrown(Doc(Prune(f, xs), n), RecordEach(f, xs)).forest == Rename(f, Renamings(f, xs, n))
            <==> forall q :: (q == TOP || q in Ids(Prune(f, xs))) ==> AllFit(f, xs, q)
  {
    var h, g, w := Prune(f, xs), Returned(f, xs, n, 0).forest, Rename(f, Renamings(f, xs, n));
    assert RecordEach(f, xs)[0..] == RecordEach(f, xs);
    forall q | q == TOP || q in Ids(h) ensures Sibs(g, q) == Sibs(w, q) <==> AllFit(f, xs, q) {
      ListExact(f, xs, n, q);
    }
    if forall q :: (q == TOP || q in Ids(h)) ==> AllFit(f, xs, q) {
      PartDown(f, xs, n, 0);
      RenamingFacts(f, xs, n);
      RenameWf(f, Renamings(f, xs, n), n);
      assert Sibs(g, TOP) == Sibs(w, TOP);
      forall p | p in Ids(g) ensures SameNode(g, w, p) {
        assert PartWay(h, g, w, p);
        if p in Ids(h) {
          assert TOP !in Ids(h) by { OldsBounded(f, xs, n); OldsFacts(f, xs); }
          assert Sibs(g, p) == Sibs(w, p);
        }
      }
      SameForest(g, w);
    }
  }

  /**
    For any selection in the editor, folders and items inside them included: undo
    restores the forest exactly when the outermost selected items fit under each parent.
  */
  lemma {:induction false} SelectionRestored(f: Forest<Item>, xs: seq<int>, n: nat, order: seq<Info>)
    requires Wf(f) && Bounded(f, n) && Selected(f, xs) && Ordered(Entries(f, xs), order)
    ensures EditorUndo(f, xs, n, order).doc.forest == Rename(f, Renamings(f, Outer(f, xs), n))
            <==> forall q :: (q == TOP || q in Ids(Prune(f, xs))) ==> AllFit(f, Outer(f, xs), q)
    ensures EditorUndo(f, xs, n, order).doc.forest == Rename(f, Renamings(f, Outer(f, xs), n)) ==>
              Erase(EditorUndo(f, xs, n, order).doc.forest) == Erase(f)
  {
    EditorUndoIs(f, xs, n, order);
    OuterFresh(f, xs, n);
    OuterPrunes(f, xs);
    UpFrontExact(f, Outer(f, xs), n);
    RenamingFacts(f, Outer(f, xs), n);
  }
}
