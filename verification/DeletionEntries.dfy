/**
  Which entries of a deletion are right after undo: ids are written back by name
  and parent (src/EditorDeleteItemCommand.cpp, updateChildIDs).
*/
module DeletionEntries {
  import opened Common
  import opened Forests
  import opened Renaming
  import opened EditorCommands
  import opened RestoreOrder
  import opened EditorDelete
  import opened DeletionRounds
  import opened DeletionOrder
  import opened DeletionListing

  /** No two entries below rebuilt items share both name and parent. */
  ghost predicate TellApart(items: seq<Info>) {
    forall i, j :: 0 <= i < j < |items| && !IsRoot(items, items[i]) && !IsRoot(items, items[j]) ==>
        Key(items[i]) != Key(items[j])
  }

  // ---------------------------------------------------------------- a rebuilt folder's contents

  ghost predicate Renamable(done: seq<int>, n: nat) {
    Distinct(done) && forall x :: x in done ==> x <= n
  }

  lemma {:induction false} RenamableParts(a: seq<int>, b: seq<int>, n: nat)
    requires Renamable(a + b, n)
    ensures Renamable(a, n) && Renamable(b, n) && forall x :: x in a ==> x !in b
  {
    DistinctParts(a, b);
    forall x | x in a || x in b ensures x <= n { assert x in a + b; }
  }

  /** Renaming one more id. */
  lemma {:induction false} OneMoreId(done: seq<int>, y: int, n: nat, x: int)
    requires Renamable(done + [y], n)
    ensures y !in done && Subst(y, Pairs(done, n)) == y && Subst(y, Pairs(done + [y], n)) == n + |done| + 1
    ensures Subst(x, Pairs(done + [y], n)) == if x == y then n + |done| + 1 else Subst(x, Pairs(done, n))
    ensures x <= n && x != y ==> Subst(x, Pairs(done, n)) != y
  {
    RenamableParts(done, [y], n);
    Simultaneous(done, n);
    Simultaneous(done + [y], n);
    assert (done + [y])[|done|] == y;
    if x in done {
      var i :| 0 <= i < |done| && done[i] == x;
      assert (done + [y])[i] == x;
    }
  }

  /** Writing one entry's new id, and moving what is under it along, is renaming one more id. */
  lemma {:induction false} EntryRenamed(items: seq<Info>, done: seq<int>, y: int, n: nat, k: nat)
    requires Renamable(done + [y], n) && k < |items| && items[k].item == y
    requires forall i :: 0 <= i < |items| ==>
              items[i].item <= n && items[i].parent <= n && (i != k ==> items[i].item != y)
    ensures var s := Remapped(items, Pairs(done, n)); var id := n + |done| + 1;
            && s[k].item == y
            && MoveAll(s[k := s[k].(item := id)], y, id) == Remapped(items, Pairs(done + [y], n))
  {
    var s, id := Remapped(items, Pairs(done, n)), n + |done| + 1;
    var r := MoveAll(s[k := s[k].(item := id)], y, id);
    OneMoreId(done, y, n, y);
    forall i | 0 <= i < |items| ensures r[i] == Remapped(items, Pairs(done + [y], n))[i] {
      OneMoreId(done, y, n, items[i].item);
      OneMoreId(done, y, n, items[i].parent);
    }
  }

  /** No other entry has this entry's id, nor its name and parent. */
  ghost predicate Sole(items: seq<Info>, k: nat)
    requires k < |items|
  {
    Alone(items, k) && forall j :: 0 <= j < |items| && j != k ==> Key(items[j]) != Key(items[k])
  }

  ghost predicate ListedAs(items: seq<Info>, k: nat, id: int, name: string, parent: int) {
    k < |items| && items[k].item == id && Key(items[k]) == (name, parent) && Sole(items, k)
  }

  /** The nodes of `f` are all listed, each under the parent it has there. */
  ghost predicate ListedKids(items: seq<Info>, f: Forest<Item>, above: int) {
    f.Cons? ==>
      && (exists k :: ListedAs(items, k, f.id, f.item.name, above))
      && ListedKids(items, f.kids, f.id) && ListedKids(items, f.rest, above)
  }

  ghost predicate UpTo(items: seq<Info>, n: nat) {
    forall i :: 0 <= i < |items| ==> items[i].item <= n && items[i].parent <= n
  }

  /** Only an entry with this name and parent can be found by them, once the parent is renamed. */
  lemma {:induction false} FoundRenamed(items: seq<Info>, done: seq<int>, n: nat, k: nat, above: int)
    requires Renamable(done, n) && UpTo(items, n) && k < |items| && items[k].parent == above
    requires Sole(items, k)
    ensures FirstWith(Remapped(items, Pairs(done, n)), (items[k].name, Subst(above, Pairs(done, n)))) == k
  {
    var s := Remapped(items, Pairs(done, n));
    var key := (items[k].name, Subst(above, Pairs(done, n)));
    Simultaneous(done, n);
    assert Key(s[k]) == key;
    forall j | 0 <= j < |items| && j != k ensures Key(s[j]) != key {
      assert Key(items[j]) != Key(items[k]);
      assert items[j].parent <= n && above <= n;
    }
    var e := FirstWith(s, key);
    assert !(k < e);
  }

  lemma {:induction false} SubstPrefix(a: seq<int>, b: seq<int>, n: nat, x: int)
    requires Renamable(a + b, n) && x in a
    ensures Subst(x, Pairs(a + b, n)) == Subst(x, Pairs(a, n))
  {
    RenamableParts(a, b, n);
    Simultaneous(a, n);
    Simultaneous(a + b, n);
    var i :| 0 <= i < |a| && a[i] == x;
    assert (a + b)[i] == x;
  }

  /** Writing one node's id. */
  lemma {:induction false} NodeWritten(items: seq<Info>, done: seq<int>, y: int, name: string, above: int, n: nat)
    requires Renamable(done + [y], n) && UpTo(items, n) && exists k :: ListedAs(items, k, y, name, above)
    ensures var s := Remapped(items, Pairs(done, n)); var id := n + |done| + 1;
            var k := FirstWith(s, (name, Subst(above, Pairs(done, n))));
            && k < |s| && s[k].item == y && y != id
            && MoveAll(s[k := s[k].(item := id)], s[k].item, id) == Remapped(items, Pairs(done + [y], n))
  {
    var k :| ListedAs(items, k, y, name, above);
    RenamableParts(done, [y], n);
    FoundRenamed(items, done, n, k, above);
    EntryRenamed(items, done, y, n, k);
    assert y in [y];
  }

  /** A node's entry, then what is below the node, then its later siblings. */
  lemma {:induction false} RenameKidsCons(s: seq<Info>, f: Forest<Item>, parent: int, s1: seq<Info>, s2: seq<Info>)
    requires f.Cons?
    requires var k := FirstWith(s, (f.item.name, parent));
             k < |s| && s[k].item != f.id && s1 == MoveAll(s[k := s[k].(item := f.id)], s[k].item, f.id)
    requires RenameKids(s1, f.kids, f.id) == s2
    ensures RenameKids(s, f, parent) == RenameKids(s2, f.rest, parent)
  {
  }

  /** The ids renamed before a node's children, and before its later siblings. */
  lemma {:induction false} DoneParts(done: seq<int>, f: Forest<Item>, above: int, n: nat, done1: seq<int>,
                                     done2: seq<int>)
    requires f.Cons? && Renamable(done + Order(f), n) && above in done
    requires done1 == done + [f.id] && done2 == done1 + Order(f.kids)
    ensures Renamable(done1, n) && Renamable(done2, n) && Renamable(done2 + Order(f.rest), n)
    ensures done + Order(f) == done2 + Order(f.rest)
    ensures Subst(above, Pairs(done2, n)) == Subst(above, Pairs(done, n))
    ensures Subst(f.id, Pairs(done1, n)) == n + |done| + 1
  {
    assert done + Order(f) == done2 + Order(f.rest);
    RenamableParts(done2, Order(f.rest), n);
    RenamableParts(done1, Order(f.kids), n);
    assert done2 == done + ([f.id] + Order(f.kids));
    SubstPrefix(done, [f.id] + Order(f.kids), n, above);
    OneMoreId(done, f.id, n, f.id);
  }

  lemma {:induction false} NodeAndBelow(items: seq<Info>, done: seq<int>, f: Forest<Item>, above: int, n: nat,
                                        g: Forest<Item>, p: int,
                                        done1: seq<int>, done2: seq<int>)
    requires f.Cons? && g.Cons? && Renamable(done1, n) && UpTo(items, n) && done1 == done + [f.id]
    requires exists k :: ListedAs(items, k, f.id, f.item.name, above)
    requires p == Subst(above, Pairs(done, n)) && g.id == n + |done| + 1 && g.item == f.item
    requires RenameKids(Remapped(items, Pairs(done1, n)), g.kids, g.id) == Remapped(items, Pairs(done2, n))
    ensures RenameKids(Remapped(items, Pairs(done, n)), g, p) == RenameKids(Remapped(items, Pairs(done2, n)), g.rest, p)
  {
    NodeWritten(items, done, f.id, f.item.name, above, n);
    RenameKidsCons(Remapped(items, Pairs(done, n)), g, p, Remapped(items, Pairs(done1, n)),
        Remapped(items, Pairs(done2, n)));
  }

  /** When every node below is listed once and told apart, all of them are given their own new ids. */
  lemma {:induction false} KidsRenamed(items: seq<Info>, done: seq<int>, f: Forest<Item>, above: int, n: nat,
                                       g: Forest<Item>, p: int)
    requires Renamable(done + Order(f), n) && UpTo(items, n) && ListedKids(items, f, above) && above in done
    requires g == Freshen(f, n + |done|) && p == Subst(above, Pairs(done, n))
    ensures RenameKids(Remapped(items, Pairs(done, n)), g, p) == Remapped(items, Pairs(done + Order(f), n))
    decreases f
  {
    if f.Nil? {
      assert done + Order(f) == done;
    } else {
      var done1, done2 := done + [f.id], done + [f.id] + Order(f.kids);
      DoneParts(done, f, above, n, done1, done2);
      InDone(done, done1, done2, f.id, Order(f.kids), above);
      FreshenParts(f, n, done, done1, done2);
      KidsRenamed(items, done1, f.kids, f.id, n, g.kids, g.id);
      NodeAndBelow(items, done, f, above, n, g, p, done1, done2);
      KidsRenamed(items, done2, f.rest, above, n, g.rest, p);
    }
  }

  lemma {:induction false} FreshenParts(f: Forest<Item>, n: nat, done: seq<int>, done1: seq<int>, done2: seq<int>)
    requires f.Cons? && |done1| == |done| + 1 && |done2| == |done1| + Size(f.kids)
    ensures var g := Freshen(f, n + |done|);
            && g.Cons? && g.id == n + |done| + 1 && g.item == f.item
            && g.kids == Freshen(f.kids, n + |done1|) && g.rest == Freshen(f.rest, n + |done2|)
  {
  }

  lemma {:induction false} InDone(done: seq<int>, done1: seq<int>, done2: seq<int>, y: int, below: seq<int>, x: int)
    requires done1 == done + [y] && done2 == done1 + below && x in done
    ensures x in done2 && y in done1 && |done1| == |done| + 1 && |done2| == |done1| + |below|
  {
  }

  // ---------------------------------------------------------------- a whole undo

  /** Equal, but for the ids of items rebuilt themselves. */
  ghost predicate SameInside(h: Forest<Item>, items: seq<Info>, s: seq<Info>, r: seq<Info>) {
    |s| == |r| == |items| && forall i :: 0 <= i < |items| ==>
      s[i] == r[i] || (OnBase(h, items[i]) && s[i] == r[i].(item := s[i].item))
  }

  lemma {:induction false} SameFirst(h: Forest<Item>, items: seq<Info>, s: seq<Info>, r: seq<Info>, key: (string, int))
    requires SameInside(h, items, s, r)
    ensures FirstWith(s, key) == FirstWith(r, key)
  {
    var a, b := FirstWith(s, key), FirstWith(r, key);
    forall i | 0 <= i < |s| ensures Key(s[i]) == Key(r[i]) {}
    assert !(a < b) && !(b < a);
  }

  lemma {:induction false} InsideKids(h: Forest<Item>, items: seq<Info>, s: seq<Info>, r: seq<Info>,
                                      kids: Forest<Item>, parent: int,
                                      anchors: set<int>, reserved: set<int>, n: nat)
    requires Tracked(h, items, s, anchors, reserved, n) && SameInside(h, items, s, r) && parent != TOP
    requires parent !in Ids(h)
    requires forall x :: x in Ids(kids) ==> 0 < x <= n && x !in Ids(h) && x !in reserved
    ensures SameInside(h, items, RenameKids(s, kids, parent), RenameKids(r, kids, parent))
    decreases kids
  {
    if kids.Cons? {
      var k := FirstWith(s, (kids.item.name, parent));
      SameFirst(h, items, s, r, (kids.item.name, parent));
      assert kids.id in Ids(kids);
      var s2, r2 := s, r;
      if k < |s| {
        TrackedParent(h, items, s, anchors, reserved, n, k);
        assert s[k] == r[k];
        if s[k].item != kids.id {
          var s1 := MoveAll(s[k := s[k].(item := kids.id)], s[k].item, kids.id);
          var r1 := MoveAll(r[k := r[k].(item := kids.id)], r[k].item, kids.id);
          RenameOne(h, items, s, k, kids.id, anchors, reserved, n);
          InsideKids(h, items, s1, r1, kids.kids, kids.id, anchors, reserved, n);
          RenameKidsKeeps(h, items, s1, kids.kids, kids.id, anchors, reserved, n);
          s2, r2 := RenameKids(s1, kids.kids, kids.id), RenameKids(r1, kids.kids, kids.id);
        }
      }
      InsideKids(h, items, s2, r2, kids.rest, parent, anchors, reserved, n);
    }
  }

  /** The ids rebuilt once the entries from `k` on are. */
  function Done(f: Forest<Item>, items: seq<Info>, k: nat): seq<int>
    requires k <= |items|
    decreases |items| - k
  {
    if k == |items| then []
    else Done(f, items, k + 1) + if IsRoot(items, items[k]) then Order(Sub(f, items[k].item)) else []
  }

  function Trees(f: Forest<Item>, zs: seq<int>): seq<int> {
    if zs == [] then [] else Trees(f, zs[1..]) + Order(Sub(f, zs[0]))
  }

  function IdsOf(s: seq<Info>): (r: seq<int>)
    ensures |r| == |s| && forall i :: 0 <= i < |s| ==> r[i] == s[i].item
  {
    seq(|s|, i requires 0 <= i < |s| => s[i].item)
  }

  lemma {:induction false} DoneTrees(f: Forest<Item>, items: seq<Info>, k: nat)
    requires k <= |items|
    ensures Done(f, items, k) == Trees(f, IdsOf(Roots(items, items[k..])))
    decreases |items| - k
  {
    if k < |items| {
      DoneTrees(f, items, k + 1);
      assert items[k..][1..] == items[k + 1..] && items[k..][0] == items[k];
      var rest := Roots(items, items[k + 1..]);
      if IsRoot(items, items[k]) {
        assert Roots(items, items[k..]) == [items[k]] + rest;
        assert IdsOf([items[k]] + rest) == [items[k].item] + IdsOf(rest);
        assert ([items[k].item] + IdsOf(rest))[1..] == IdsOf(rest);
      } else {
        assert Roots(items, items[k..]) == rest;
      }
    }
  }

  lemma {:induction false} SameTrees(f: Forest<Item>, g: Forest<Item>, zs: seq<int>)
    requires forall k :: 0 <= k < |zs| ==> Sub(f, zs[k]) == Sub(g, zs[k])
    ensures Trees(f, zs) == Trees(g, zs)
  {
    if zs != [] {
      forall k | 0 <= k < |zs[1..]| ensures zs[1..][k] == zs[k + 1] {}
      SameTrees(f, g, zs[1..]);
    }
  }

  lemma {:induction false} OldsTrees(f: Forest<Item>, zs: seq<int>)
    requires Wf(f) && TOP !in Ids(f) && Apart(f, zs)
    ensures Olds(f, zs) == Trees(f, zs)
    decreases |zs|
  {
    if zs != [] {
      var g, ys := Remove(f, zs[0]), zs[1..];
      ApartRemove(f, zs);
      OldsTrees(g, ys);
      forall k | 0 <= k < |ys| ensures Sub(g, ys[k]) == Sub(f, ys[k]) {
        ApartPair(f, zs, 0, k + 1);
        RemoveUnrelated(f, zs[0], zs[k + 1], TOP);
      }
      SameTrees(f, g, ys);
    }
  }

  /** The ids rebuilt, in order, are those the renaming is about. */
  lemma {:induction false} DoneIsOlds(f: Forest<Item>, xs: seq<int>, n: nat)
    requires Wf(f) && Bounded(f, n) && Selected(f, xs)
    ensures Fresh(f, Outer(f, xs), n) && Done(f, Entries(f, xs), 0) == Olds(f, Outer(f, xs))
    ensures Renamable(Done(f, Entries(f, xs), 0), n)
  {
    var items, zs := Entries(f, xs), Outer(f, xs);
    OuterFresh(f, xs, n);
    OldsBounded(f, zs, n);
    RootsOfListing(f, xs);
    DoneTrees(f, items, 0);
    assert items[0..] == items && IdsOf(RecordEach(f, zs)) == zs;
    OldsTrees(f, zs);
  }

  lemma {:induction false} DoneRenamable(f: Forest<Item>, items: seq<Info>, n: nat, k: nat)
    requires Renamable(Done(f, items, 0), n) && k <= |items|
    ensures Renamable(Done(f, items, k), n)
  {
    if k > 0 {
      DoneRenamable(f, items, n, k - 1);
      var tree := if IsRoot(items, items[k - 1]) then Order(Sub(f, items[k - 1].item)) else [];
      RenamableParts(Done(f, items, k), tree, n);
    }
  }

  // ---------------------------------------------------------------- the editor's entries

  lemma {:induction false} ParentInSub<T>(f: Forest<T>, z: int, y: int, above: int)
    requires Wf(f) && z in Ids(f) && y in Ids(Sub(f, z)) && y != z
    ensures y in Ids(Sub(f, z).kids) && ParentOf(f, y, above) == ParentOf(Sub(f, z).kids, y, z)
  {
    if f.id != z {
      if z in Ids(f.kids) {
        SubIn(f.kids, z);
        ParentInSub(f.kids, z, y, f.id);
      } else {
        SubIn(f.rest, z);
        ParentInSub(f.rest, z, y, above);
      }
    }
  }

  /** The nodes of `g` are listed nodes of `f`, hanging as they do there. */
  ghost predicate PartOf(f: Forest<Item>, ids: seq<int>, g: Forest<Item>, above: int) {
    Wf(g) && forall y :: y in Ids(g) ==>
      y in ids && y in Ids(f) && Single(Sub(f, y)) && Sub(f, y).item == ItemOf(g, y) &&
          ParentOf(f, y, TOP) == ParentOf(g, y, above)
  }

  lemma {:induction false} PartOfParts(f: Forest<Item>, ids: seq<int>, g: Forest<Item>, above: int)
    requires g.Cons? && PartOf(f, ids, g, above)
    ensures PartOf(f, ids, g.kids, g.id) && PartOf(f, ids, g.rest, above)
  {
    forall y | y in Ids(g.kids) ensures y in Ids(g) && ItemOf(g, y) == ItemOf(g.kids, y) &&
        ParentOf(g, y, above) == ParentOf(g.kids, y, g.id) {}
    forall y | y in Ids(g.rest) ensures y in Ids(g) && ItemOf(g, y) == ItemOf(g.rest, y) &&
        ParentOf(g, y, above) == ParentOf(g.rest, y, above) {}
  }

  lemma {:induction false} NodeListed(f: Forest<Item>, xs: seq<int>, y: int, name: string, above: int)
    requires Wf(f) && TOP !in Ids(f) && Selected(f, xs) && TellApart(Entries(f, xs))
    requires y in ListedIds(f, xs) && y in Ids(f) && Sub(f, y).item.name == name
    requires ParentOf(f, y, TOP) == above && above in ListedIds(f, xs)
    ensures exists k :: ListedAs(Entries(f, xs), k, y, name, above)
  {
    var items, ids := Entries(f, xs), ListedIds(f, xs);
    var k: nat :| k < |ids| && ids[k] == y;
    EntriesAt(f, xs, k);
    EntriesDeleted(f, xs, above);
    NotListed(f, xs, TOP);
    forall j | 0 <= j < |items| && j != k ensures items[j].item != items[k].item && Key(items[j]) != Key(items[k]) {
      EntriesAt(f, xs, j);
      assert !IsRoot(items, items[k]);
    }
    assert ListedAs(items, k, y, name, above);
  }

  lemma {:induction false} KidsListed(f: Forest<Item>, xs: seq<int>, g: Forest<Item>, above: int)
    requires Wf(f) && TOP !in Ids(f) && Selected(f, xs) && TellApart(Entries(f, xs))
    requires PartOf(f, ListedIds(f, xs), g, above) && above in ListedIds(f, xs)
    ensures ListedKids(Entries(f, xs), g, above)
    decreases g
  {
    if g.Cons? {
      assert g.id in Ids(g);
      NodeListed(f, xs, g.id, g.item.name, above);
      PartOfParts(f, ListedIds(f, xs), g, above);
      KidsListed(f, xs, g.kids, g.id);
      KidsListed(f, xs, g.rest, above);
    }
  }

  lemma {:induction false} TreePart(f: Forest<Item>, xs: seq<int>, z: int)
    requires Wf(f) && Selected(f, xs) && z in Ids(f) && (exists k :: 0 <= k < |xs| && z == xs[k])
    ensures z in ListedIds(f, xs) && PartOf(f, ListedIds(f, xs), Sub(f, z).kids, z)
  {
    var k :| 0 <= k < |xs| && z == xs[k];
    RemoveIds(f, z);
    ListedIn(f, xs, k, z);
    var g := Sub(f, z).kids;
    forall y | y in Ids(g)
      ensures y in ListedIds(f, xs) && y in Ids(f) && Single(Sub(f, y)) && Sub(f, y).item == ItemOf(g, y)
      ensures ParentOf(f, y, TOP) == ParentOf(g, y, z)
    {
      assert y in Ids(Sub(f, z)) && y != z;
      ListedIn(f, xs, k, y);
      SubIn(f, z);
      ParentInSub(f, z, y, TOP);
      SubSub(f, z, y);
      SubItem(g, y);
    }
  }

  lemma {:induction false} SubItem<T>(f: Forest<T>, y: int)
    requires y in Ids(f)
    ensures Single(Sub(f, y)) && Sub(f, y).item == ItemOf(f, y)
  {
    if f.id != y { if y in Ids(f.kids) { SubItem(f.kids, y); } else { SubItem(f.rest, y); } }
  }

  // ---------------------------------------------------------------- when every entry is right

  lemma {:induction false} EntriesUpTo(f: Forest<Item>, xs: seq<int>, n: nat)
    requires Wf(f) && Bounded(f, n)
    ensures UpTo(Entries(f, xs), n)
  {
    var items := Entries(f, xs);
    forall i | 0 <= i < |items| ensures items[i].item <= n && items[i].parent <= n {
      EntriesAt(f, xs, i);
      ParentIn(f, items[i].item, TOP);
      var p := ParentOf(f, items[i].item, TOP);
      assert p == TOP || p in Ids(f);
    }
  }

  lemma {:induction false} RootSelected(f: Forest<Item>, xs: seq<int>, n: nat, k: nat)
    requires Wf(f) && Bounded(f, n) && Selected(f, xs) && k < |Entries(f, xs)|
    requires IsRoot(Entries(f, xs), Entries(f, xs)[k])
    ensures var z := Entries(f, xs)[k].item;
            && z in Ids(f) && Entries(f, xs)[k].snapshot == Erase(Sub(f, z)) && Single(Sub(f, z)) && Sub(f, z).id == z
            && exists i :: 0 <= i < |xs| && z == xs[i]
  {
    EntriesAt(f, xs, k);
    var z := ListedIds(f, xs)[k];
    EntriesDeleted(f, xs, ParentOf(f, z, TOP));
    NotListed(f, xs, TOP);
    assert z in ListedIds(f, xs);
    var m := ListedFrom(f, xs, z);
    TopOfTree(f, xs, m, z);
  }

  ghost predicate RootOf(f: Forest<Item>, items: seq<Info>, k: nat)
    requires k < |items|
  {
    var z := items[k].item;
    items[k].snapshot == Erase(Sub(f, z)) && Single(Sub(f, z)) && Sub(f, z).id == z
  }

  /** The entries list trees of `f`. */
  ghost predicate Rooted(f: Forest<Item>, h: Forest<Item>, n: nat, items: seq<Info>) {
    && Listing(h, n, items) && UpTo(items, n) && Renamable(Done(f, items, 0), n)
    && forall k {:trigger RootOf(f, items, k)} :: 0 <= k < |items| && IsRoot(items, items[k]) ==> RootOf(f, items, k)
  }

  ghost predicate ToldApart(f: Forest<Item>, items: seq<Info>, k: nat)
    requires k < |items| && RootOf(f, items, k)
  {
    ListedKids(items, Sub(f, items[k].item).kids, items[k].item)
  }

  /** The entries list trees of `f`, everything in them told apart. */
  ghost predicate Faithful(f: Forest<Item>, h: Forest<Item>, n: nat, items: seq<Info>) {
    && Rooted(f, h, n, items)
    && forall k {:trigger RootOf(f, items, k)} :: 0 <= k < |items| && IsRoot(items, items[k]) ==>
         RootOf(f, items, k) && ToldApart(f, items, k)
  }

  lemma {:induction false} EditorRooted(f: Forest<Item>, xs: seq<int>, n: nat)
    requires Wf(f) && Bounded(f, n) && Selected(f, xs)
    ensures Rooted(f, Prune(f, xs), n, Entries(f, xs))
  {
    EditorListing(f, xs, n);
    EntriesUpTo(f, xs, n);
    DoneIsOlds(f, xs, n);
    var items := Entries(f, xs);
    forall k | 0 <= k < |items| && IsRoot(items, items[k]) ensures RootOf(f, items, k) { RootSelected(f, xs, n, k); }
  }

  lemma {:induction false} EditorFaithful(f: Forest<Item>, xs: seq<int>, n: nat)
    requires Wf(f) && Bounded(f, n) && Selected(f, xs) && TellApart(Entries(f, xs))
    ensures Faithful(f, Prune(f, xs), n, Entries(f, xs))
  {
    EditorRooted(f, xs, n);
    var items := Entries(f, xs);
    forall k | 0 <= k < |items| && IsRoot(items, items[k]) ensures RootOf(f, items, k) && ToldApart(f, items, k) {
      RootSelected(f, xs, n, k);
      TreePart(f, xs, items[k].item);
      KidsListed(f, xs, Sub(f, items[k].item).kids, items[k].item);
    }
  }

  predicate SizedAt(f: Forest<Item>, items: seq<Info>, k: nat)
    requires k < |items|
  {
    IsRoot(items, items[k]) ==> Single(items[k].snapshot) && Size(items[k].snapshot) == Size(Sub(f, items[k].item))
  }

  ghost predicate Sized(f: Forest<Item>, items: seq<Info>) {
    forall k {:trigger SizedAt(f, items, k)} :: 0 <= k < |items| ==> SizedAt(f, items, k)
  }

  lemma {:induction false} MaxStep(f: Forest<Item>, d: Doc, items: seq<Info>, k: nat)
    requires k < |items| && SizedAt(f, items, k)
    ensures Grown(d, items, k).maxId - Grown(d, items, k + 1).maxId == |Done(f, items, k)| - |Done(f, items, k + 1)|
  {
    FreshenShape(items[k].snapshot, Grown(d, items, k + 1).maxId);
  }

  /** Ids are handed out to the rebuilt trees' nodes and to nothing else. */
  lemma {:induction false} Counted(f: Forest<Item>, d: Doc, items: seq<Info>, k: nat)
    requires Sized(f, items) && k <= |items|
    ensures Grown(d, items, k).maxId == d.maxId + |Done(f, items, k)|
    decreases |items| - k
  {
    if k < |items| {
      assert SizedAt(f, items, k);
      MaxStep(f, d, items, k);
      Counted(f, d, items, k + 1);
    }
  }

  lemma {:induction false} DoneMax(f: Forest<Item>, h: Forest<Item>, n: nat, items: seq<Info>, k: nat)
    requires Rooted(f, h, n, items) && k <= |items|
    ensures Grown(Doc(h, n), items, k).maxId == n + |Done(f, items, k)|
  {
    forall i | 0 <= i < |items| ensures SizedAt(f, items, i) {
      if IsRoot(items, items[i]) {
        assert RootOf(f, items, i);
        EraseFacts(Sub(f, items[i].item));
      }
    }
    Counted(f, Doc(h, n), items, k);
  }

  lemma {:induction false} DoneNext(f: Forest<Item>, items: seq<Info>, n: nat, k: nat)
    requires k < |items| && IsRoot(items, items[k]) && RootOf(f, items, k) && Renamable(Done(f, items, 0), n)
    ensures var z := items[k].item; var done := Done(f, items, k + 1);
            && Done(f, items, k) == done + [z] + Order(Sub(f, z).kids)
            && Renamable(done + [z], n) && Renamable(done + [z] + Order(Sub(f, z).kids), n)
            && Subst(z, Pairs(done + [z], n)) == n + |done| + 1
  {
    var z, done := items[k].item, Done(f, items, k + 1);
    var tree := Sub(f, z);
    assert Order(tree) == [z] + Order(tree.kids);
    assert Done(f, items, k) == done + [z] + Order(tree.kids);
    DoneRenamable(f, items, n, k);
    RenamableParts(done + [z], Order(tree.kids), n);
    OneMoreId(done, z, n, z);
  }

  lemma {:induction false} TopTree(f: Forest<Item>, h: Forest<Item>, n: nat, items: seq<Info>, k: nat, t: Forest<Item>)
    requires Rooted(f, h, n, items) && k < |items| && IsRoot(items, items[k]) && t == NewTree(Doc(h, n), items, k)
    ensures var m := n + |Done(f, items, k + 1)|;
            RootOf(f, items, k) && Single(t) && t.id == m + 1 && t.kids == Freshen(Sub(f, items[k].item).kids, m + 1)
  {
    assert RootOf(f, items, k);
    DoneMax(f, h, n, items, k + 1);
    FreshenErased(Sub(f, items[k].item), n + |Done(f, items, k + 1)|);
  }

  lemma {:induction false} ContentsRenamed(items: seq<Info>, done: seq<int>, z: int, kids: Forest<Item>, n: nat,
                                           t: Forest<Item>, all: seq<int>)
    requires Renamable(all, n) && all == done + [z] + Order(kids) && UpTo(items, n) && ListedKids(items, kids, z)
    requires Subst(z, Pairs(done + [z], n)) == n + |done| + 1
    requires Single(t) && t.id == n + |done| + 1 && t.kids == Freshen(kids, n + |done| + 1)
    ensures RenameKids(Remapped(items, Pairs(done + [z], n)), t.kids, t.id) == Remapped(items, Pairs(all, n))
  {
    var top := done + [z];
    assert |top| == |done| + 1 && z in top;
    KidsRenamed(items, top, kids, z, n, t.kids, t.id);
  }

  /** The tree rebuilt for entry `k`, and what its contents are listed as. */
  lemma {:induction false} TreeRenames(f: Forest<Item>, items: seq<Info>, n: nat, k: nat, t: Forest<Item>)
    requires k < |items| && IsRoot(items, items[k]) && RootOf(f, items, k) && ToldApart(f, items, k)
    requires UpTo(items, n) && Renamable(Done(f, items, 0), n)
    requires var m := n + |Done(f, items, k + 1)|;
             Single(t) && t.id == m + 1 && t.kids == Freshen(Sub(f, items[k].item).kids, m + 1)
    ensures var done, z := Done(f, items, k + 1), items[k].item;
            && Renamable(done + [z], n)
            && RenameKids(Remapped(items, Pairs(done + [z], n)), t.kids, t.id)
                == Remapped(items, Pairs(Done(f, items, k), n))
  {
    var z := items[k].item;
    DoneNext(f, items, n, k);
    ContentsRenamed(items, Done(f, items, k + 1), z, Sub(f, z).kids, n, t, Done(f, items, k));
  }

  /** The entries with those from `k` on rebuilt: renamed, but for the ids of the items rebuilt themselves. */
  ghost predicate RenamedInside(f: Forest<Item>, h: Forest<Item>, n: nat, items: seq<Info>, k: nat) {
    k <= |items| && SameInside(h, items, GrownItems(Doc(h, n), items, k), Remapped(items, Pairs(Done(f, items, k), n)))
  }

  lemma {:induction false} TopRenamed(h: Forest<Item>, items: seq<Info>, s: seq<Info>, done: seq<int>, n: nat, k: nat,
                                      f: nat, id: int,
                                      s1: seq<Info>, r1: seq<Info>)
    requires k < |items| && f < |items| && OnBase(h, items[k]) && OnBase(h, items[f]) && Alone(items, k)
    requires Renamable(done + [items[k].item], n) && UpTo(items, n)
    requires SameInside(h, items, s, Remapped(items, Pairs(done, n)))
    requires id == n + |done| + 1 && s1 == MoveAll(s[f := s[f].(item := id)], items[k].item, id)
    requires r1 == Remapped(items, Pairs(done + [items[k].item], n))
    ensures SameInside(h, items, s1, r1)
  {
    EntryRenamed(items, done, items[k].item, n, k);
  }

  /** The entries once the item of entry `k` itself is written, before its contents are. */
  lemma {:induction false} GrownTop(h: Forest<Item>, n: nat, items: seq<Info>, k: nat, t: Forest<Item>)
    returns (at: nat, s1: seq<Info>)
    requires Listing(h, n, items) && k < |items| && OnBase(h, items[k]) && t == NewTree(Doc(h, n), items, k)
    ensures Single(t) && at < |items| && OnBase(h, items[at]) && Alone(items, k)
    ensures var d := Doc(h, n); var s := GrownItems(d, items, k + 1);
            && s1 == MoveAll(s[at := s[at].(item := t.id)], items[k].item, t.id)
            && GrownItems(d, items, k) == RenameKids(s1, t.kids, t.id)
            && Tracked(h, items, s1, Anchors(d, items, k), Reserved(d, items), Grown(d, items, k).maxId)
  {
    var d := Doc(h, n);
    var s := GrownItems(d, items, k + 1);
    assert Entered(h, n, items, k);
    at := RootWritten(h, n, items, k);
    WhereWritten(h, n, items, k + 1);
    FirstRoot(h, n, items, s, k, at);
    s1 := MoveAll(s[at := s[at].(item := t.id)], items[k].item, t.id);
  }

  lemma {:induction false} GrownKids(h: Forest<Item>, n: nat, items: seq<Info>, k: nat, t: Forest<Item>, s1: seq<Info>,
                                     r1: seq<Info>)
    requires Listing(h, n, items) && k < |items| && OnBase(h, items[k]) && t == NewTree(Doc(h, n), items, k)
    requires Single(t)
    requires var d := Doc(h, n);
             Tracked(h, items, s1, Anchors(d, items, k), Reserved(d, items), Grown(d, items, k).maxId)
    requires SameInside(h, items, s1, r1)
    ensures SameInside(h, items, RenameKids(s1, t.kids, t.id), RenameKids(r1, t.kids, t.id))
  {
    var d := Doc(h, n);
    assert Entered(h, n, items, k);
    KidsUnreserved(h, n, items, k);
    NewIdBounds(h, n, items, k);
    InsideKids(h, items, s1, r1, t.kids, t.id, Anchors(d, items, k), Reserved(d, items), Grown(d, items, k).maxId);
  }

  lemma {:induction false} InsideStep(f: Forest<Item>, h: Forest<Item>, n: nat, items: seq<Info>, k: nat)
    requires Faithful(f, h, n, items) && k < |items| && IsRoot(items, items[k]) && RenamedInside(f, h, n, items, k + 1)
    ensures RenamedInside(f, h, n, items, k)
  {
    var t, done := NewTree(Doc(h, n), items, k), Done(f, items, k + 1);
    BaseIsRoot(h, n, items, k);
    TopTree(f, h, n, items, k, t);
    assert ToldApart(f, items, k);
    TreeRenames(f, items, n, k, t);
    var at, s1 := GrownTop(h, n, items, k, t);
    var r1 := Remapped(items, Pairs(done + [items[k].item], n));
    TopRenamed(h, items, GrownItems(Doc(h, n), items, k + 1), done, n, k, at, t.id, s1, r1);
    GrownKids(h, n, items, k, t, s1, r1);
  }

  lemma {:induction false} InsideOther(f: Forest<Item>, h: Forest<Item>, n: nat, items: seq<Info>, k: nat)
    requires k < |items| && !IsRoot(items, items[k]) && RenamedInside(f, h, n, items, k + 1)
    ensures RenamedInside(f, h, n, items, k)
  {
    assert Done(f, items, k) == Done(f, items, k + 1);
  }

  lemma {:induction false} InsideOne(f: Forest<Item>, h: Forest<Item>, n: nat, items: seq<Info>, k: nat, k1: nat)
    requires Faithful(f, h, n, items) && k < |items| && k1 == k + 1 && RenamedInside(f, h, n, items, k1)
    ensures RenamedInside(f, h, n, items, k)
  {
    if IsRoot(items, items[k]) { InsideStep(f, h, n, items, k); } else { InsideOther(f, h, n, items, k); }
  }

  lemma {:induction false} InsideDown(f: Forest<Item>, h: Forest<Item>, n: nat, items: seq<Info>, k: nat, from: nat)
    requires Faithful(f, h, n, items) && k <= from && RenamedInside(f, h, n, items, from)
    ensures RenamedInside(f, h, n, items, k)
    decreases from
  {
    if k < from {
      var j: nat := from - 1;
      InsideOne(f, h, n, items, j, from);
      InsideDown(f, h, n, items, k, j);
    }
  }

  lemma {:induction false} InsideStart(f: Forest<Item>, h: Forest<Item>, n: nat, items: seq<Info>)
    ensures RenamedInside(f, h, n, items, |items|)
  {
    assert Remapped(items, []) == items;
  }

  /** Every root's new id, as the renaming has it. */
  lemma {:induction false} RootRenamed(f: Forest<Item>, h: Forest<Item>, n: nat, items: seq<Info>, k: nat, i: nat)
    requires Rooted(f, h, n, items) && k <= i < |items| && IsRoot(items, items[i])
    ensures Subst(items[i].item, Pairs(Done(f, items, k), n)) == NewId(Doc(h, n), items, i)
  {
    var z := items[i].item;
    assert RootOf(f, items, i);
    DoneNext(f, items, n, i);
    DoneMax(f, h, n, items, i + 1);
    var done := Done(f, items, i + 1) + [z];
    SubstPrefix(done, Order(Sub(f, z).kids), n, z);
    DonePrefix(f, items, n, k, i, z);
  }

  lemma {:induction false} DoneKeeps(f: Forest<Item>, items: seq<Info>, n: nat, k: nat, x: int)
    requires k < |items| && Renamable(Done(f, items, 0), n) && x in Done(f, items, k + 1)
    ensures Subst(x, Pairs(Done(f, items, k), n)) == Subst(x, Pairs(Done(f, items, k + 1), n)) && x in Done(f, items, k)
  {
    var a, b := Done(f, items, k + 1), if IsRoot(items, items[k]) then Order(Sub(f, items[k].item)) else [];
    DoneRenamable(f, items, n, k);
    assert Done(f, items, k) == a + b;
    SubstPrefix(a, b, n, x);
  }

  lemma {:induction false} DonePrefix(f: Forest<Item>, items: seq<Info>, n: nat, k: nat, i: nat, x: int)
    requires k <= i <= |items| && Renamable(Done(f, items, 0), n) && x in Done(f, items, i)
    ensures Subst(x, Pairs(Done(f, items, k), n)) == Subst(x, Pairs(Done(f, items, i), n)) && x in Done(f, items, k)
    decreases i
  {
    if k < i {
      var j: nat := i - 1;
      DoneKeeps(f, items, n, j, x);
      DonePrefix(f, items, n, k, j, x);
    }
  }

  lemma {:induction false} AllRenamed(f: Forest<Item>, h: Forest<Item>, n: nat, items: seq<Info>)
    requires Faithful(f, h, n, items)
    ensures RoundItems(Doc(h, n), items) == Remapped(items, Pairs(Done(f, items, 0), n))
  {
    var s, r := RoundItems(Doc(h, n), items), Remapped(items, Pairs(Done(f, items, 0), n));
    InsideStart(f, h, n, items);
    InsideDown(f, h, n, items, 0, |items|);
    forall i | 0 <= i < |items| ensures s[i] == r[i] {
      WalkAt(h, n, items, i);
      BaseIsRoot(h, n, items, i);
      if IsRoot(items, items[i]) { RootRenamed(f, h, n, items, 0, i); }
    }
  }

  // ---------------------------------------------------------------- when some entry is not

  lemma {:induction false} TwinKids(s: seq<Info>, kids: Forest<Item>, parent: int, i: nat, j: nat)
    requires i < j < |s| && Key(s[i]) == Key(s[j])
    ensures var r := RenameKids(s, kids, parent); Key(r[i]) == Key(r[j]) && r[j].item == s[j].item
    decreases kids
  {
    if kids.Cons? {
      var k := FirstWith(s, (kids.item.name, parent));
      var s2 := s;
      if k < |s| && s[k].item != kids.id {
        assert k != j;
        var s1 := MoveAll(s[k := s[k].(item := kids.id)], s[k].item, kids.id);
        TwinKids(s1, kids.kids, kids.id, i, j);
        s2 := RenameKids(s1, kids.kids, kids.id);
      }
      TwinKids(s2, kids.rest, parent, i, j);
    }
  }

  /** An entry with an earlier twin is never given an id by undo. */
  lemma {:induction false} TwinStale(d: Doc, items: seq<Info>, k: nat, i: nat, j: nat)
    requires k <= |items| && i < j < |items| && Key(items[i]) == Key(items[j])
    ensures var s := GrownItems(d, items, k); Key(s[i]) == Key(s[j]) && s[j].item == items[j].item
    decreases |items| - k
  {
    if k < |items| {
      TwinStale(d, items, k + 1, i, j);
      var s, x := GrownItems(d, items, k + 1), items[k];
      if IsRoot(items, x) && Single(x.snapshot) && FirstWith(s, Key(x)) < |s| {
        var f, t := FirstWith(s, Key(x)), NewTree(d, items, k);
        assert f != j;
        TwinKids(MoveAll(s[f := s[f].(item := t.id)], x.item, t.id), t.kids, t.id, i, j);
      }
    }
  }

  lemma {:induction false} OldGoes(f: Forest<Item>, xs: seq<int>, n: nat, j: nat)
    requires Wf(f) && Bounded(f, n) && Selected(f, xs) && j < |Entries(f, xs)|
    ensures Subst(Entries(f, xs)[j].item, Renamings(f, Outer(f, xs), n)) != Entries(f, xs)[j].item
  {
    var zs, y := Outer(f, xs), ListedIds(f, xs)[j];
    OuterFresh(f, xs, n);
    OldsBounded(f, zs, n);
    OldsFacts(f, zs);
    OuterPrunes(f, xs);
    EntriesAt(f, xs, j);
    PrunedIds(f, xs, y);
    Simultaneous(Olds(f, zs), n);
    assert y in Olds(f, zs);
    var i :| 0 <= i < |Olds(f, zs)| && Olds(f, zs)[i] == y;
  }

  /**
    After undo and the stack's walk every entry, those of the contents of folders
    included, follows the renaming of the forest precisely when no two entries
    below rebuilt items share both name and parent.
  */
  lemma {:induction false} EntriesFollow(f: Forest<Item>, xs: seq<int>, n: nat)
    requires Wf(f) && Bounded(f, n) && Selected(f, xs)
    ensures RoundItems(Doc(Prune(f, xs), n), Entries(f, xs)) == Remapped(Entries(f, xs), Renamings(f, Outer(f, xs), n))
            <==> TellApart(Entries(f, xs))
  {
    var h, items := Prune(f, xs), Entries(f, xs);
    if TellApart(items) {
      EditorFaithful(f, xs, n);
      AllRenamed(f, h, n, items);
      DoneIsOlds(f, xs, n);
    } else {
      var i, j :| 0 <= i < j < |items| && !IsRoot(items, items[i]) && !IsRoot(items, items[j]) &&
          Key(items[i]) == Key(items[j]);
      EditorListing(f, xs, n);
      TwinStale(Doc(h, n), items, 0, i, j);
      WalkAt(h, n, items, j);
      OldGoes(f, xs, n, j);
    }
  }

  // ---------------------------------------------------------------- the other commands on the stack

  lemma {:induction false} RootIsOuter(f: Forest<Item>, xs: seq<int>, k: nat)
    requires Wf(f) && TOP !in Ids(f) && Selected(f, xs) && k < |Entries(f, xs)|
    requires IsRoot(Entries(f, xs), Entries(f, xs)[k])
    ensures Entries(f, xs)[k].item in Outer(f, xs) && Entries(f, xs)[k].item in ListedIds(f, xs)
  {
    var items, zs := Entries(f, xs), Outer(f, xs);
    RootsOfListing(f, xs);
    RootsMember(items, items, items[k]);
    var i :| 0 <= i < |zs| && RecordEach(f, zs)[i] == items[k];
    EntriesAt(f, xs, k);
  }

  lemma {:induction false} OuterIsRoot(f: Forest<Item>, xs: seq<int>, x: int) returns (k: nat)
    requires Wf(f) && TOP !in Ids(f) && Selected(f, xs) && x in Outer(f, xs)
    ensures k < |Entries(f, xs)| && Entries(f, xs)[k].item == x && IsRoot(Entries(f, xs), Entries(f, xs)[k])
  {
    var items, zs := Entries(f, xs), Outer(f, xs);
    RootsOfListing(f, xs);
    var i :| 0 <= i < |zs| && zs[i] == x;
    RootsMember(items, items, RecordEach(f, zs)[i]);
    k :| 0 <= k < |items| && items[k] == RecordEach(f, zs)[i];
  }

  lemma {:induction false} OuterFollows(f: Forest<Item>, xs: seq<int>, n: nat, x: int)
    requires Wf(f) && Bounded(f, n) && Selected(f, xs) && x in Outer(f, xs)
    ensures Subst(x, GrownChanges(Doc(Prune(f, xs), n), Entries(f, xs), 0)) == Subst(x, Renamings(f, Outer(f, xs), n))
  {
    var h, items := Prune(f, xs), Entries(f, xs);
    EditorRooted(f, xs, n);
    DoneIsOlds(f, xs, n);
    var k := OuterIsRoot(f, xs, x);
    ChangesGive(h, n, items, 0, k);
    RootRenamed(f, h, n, items, 0, k);
  }

  lemma {:induction false} OtherUnchanged(f: Forest<Item>, xs: seq<int>, n: nat, x: int)
    requires Wf(f) && TOP !in Ids(f) && Selected(f, xs) && x !in Outer(f, xs)
    ensures Subst(x, GrownChanges(Doc(Prune(f, xs), n), Entries(f, xs), 0)) == x
  {
    var items := Entries(f, xs);
    forall j | 0 <= j < |items| && IsRoot(items, items[j]) ensures x != items[j].item { RootIsOuter(f, xs, j); }
    ChangesLeave(Doc(Prune(f, xs), n), items, 0, x);
  }

  lemma {:induction false} KeptUnchanged(f: Forest<Item>, xs: seq<int>, n: nat, x: int)
    requires Wf(f) && Bounded(f, n) && Selected(f, xs) && x !in ListedIds(f, xs)
    ensures Subst(x, Renamings(f, Outer(f, xs), n)) == x
  {
    var zs := Outer(f, xs);
    OuterFresh(f, xs, n);
    OldsBounded(f, zs, n);
    OldsFacts(f, zs);
    OuterPrunes(f, xs);
    PrunedIds(f, xs, x);
    Untouched(x, Olds(f, zs), n);
  }

  /**
    The changes that undoing a deletion passes to the whole stack rename an id as
    the forest's own renaming does precisely when it is not the id of an item
    strictly inside a deleted one: other commands lose track of those.
  */
  lemma {:induction false} StackFollows(f: Forest<Item>, xs: seq<int>, n: nat, x: int)
    requires Wf(f) && Bounded(f, n) && Selected(f, xs)
    ensures Subst(x, GrownChanges(Doc(Prune(f, xs), n), Entries(f, xs), 0)) == Subst(x, Renamings(f, Outer(f, xs), n))
            <==> x !in ListedIds(f, xs) || x in Outer(f, xs)
  {
    if x in Outer(f, xs) {
      OuterFollows(f, xs, n, x);
    } else {
      assert TOP !in Ids(f);
      OtherUnchanged(f, xs, n, x);
      if x in ListedIds(f, xs) {
        var j: nat :| j < |ListedIds(f, xs)| && ListedIds(f, xs)[j] == x;
        EntriesAt(f, xs, j);
        OldGoes(f, xs, n, j);
      } else {
        KeptUnchanged(f, xs, n, x);
      }
    }
  }

  // ---------------------------------------------------------------- as if recorded again

  function NewIds(xs: seq<int>, pairs: seq<(int, int)>): (r: seq<int>)
    ensures |r| == |xs|
    decreases |xs|
  {
    if xs == [] then [] else [Subst(xs[0], pairs)] + NewIds(xs[1..], pairs)
  }

  lemma {:induction false} NewIdsAt(xs: seq<int>, pairs: seq<(int, int)>, k: nat)
    requires k < |xs|
    ensures NewIds(xs, pairs)[k] == Subst(xs[k], pairs)
  {
    if k > 0 { NewIdsAt(xs[1..], pairs, k - 1); }
  }

  lemma {:induction false} RenameParent<T>(f: Forest<T>, x: int, above: int, pairs: seq<(int, int)>, n: nat)
    requires Injective(pairs, n) && Bounded(f, n) && x <= n
    ensures ParentOf(Rename(f, pairs), Subst(x, pairs), Subst(above, pairs)) == Subst(ParentOf(f, x, above), pairs)
  {
    if f.Cons? {
      BoundedParts(f, n);
      RenameMember(f.kids, pairs, n, x);
      RenameParent(f.kids, x, f.id, pairs, n);
      RenameParent(f.rest, x, above, pairs, n);
    }
  }

  lemma {:induction false} RenameTop<T>(f: Forest<T>, x: int, pairs: seq<(int, int)>, n: nat)
    requires Injective(pairs, n) && Bounded(f, n) && x <= n
    ensures AtTop(f, x) <==> AtTop(Rename(f, pairs), Subst(x, pairs))
  {
    if f.Cons? {
      BoundedParts(f, n);
      RenameTop(f.rest, x, pairs, n);
    }
  }

  lemma {:induction false} RenamePosition<T>(f: Forest<T>, x: int, pairs: seq<(int, int)>, n: nat)
    requires Injective(pairs, n) && Bounded(f, n) && x <= n
    ensures PositionOf(Rename(f, pairs), Subst(x, pairs)) == PositionOf(f, x)
  {
    if f.Cons? {
      BoundedParts(f, n);
      RenameMember(f.kids, pairs, n, x);
      RenameTop(f.rest, x, pairs, n);
      RenamePosition(f.kids, x, pairs, n);
      RenamePosition(f.rest, x, pairs, n);
    }
  }

  lemma {:induction false} RenameRecord(g: Forest<Item>, x: int, pairs: seq<(int, int)>, n: nat)
    requires Injective(pairs, n) && Wf(g) && Bounded(g, n) && x in Ids(g)
    requires Subst(TOP, pairs) == TOP
    ensures Subst(x, pairs) in Ids(Rename(g, pairs))
    ensures Record(Rename(g, pairs), Subst(x, pairs))
         == Record(g, x).(item := Subst(x, pairs), parent := Subst(ParentOf(g, x, TOP), pairs))
  {
    RenameMember(g, pairs, n, x);
    RenameParent(g, x, TOP, pairs, n);
    RenamePosition(g, x, pairs, n);
    RenameRemove(g, x, pairs, n);
    RenameErase(Sub(g, x), pairs);
  }

  lemma {:induction false} NewIdsConcat(a: seq<int>, b: seq<int>, pairs: seq<(int, int)>)
    ensures NewIds(a + b, pairs) == NewIds(a, pairs) + NewIds(b, pairs)
  {
    forall k | 0 <= k < |a + b| ensures NewIds(a + b, pairs)[k] == (NewIds(a, pairs) + NewIds(b, pairs))[k] {
      NewIdsAt(a + b, pairs, k);
      if k < |a| { NewIdsAt(a, pairs, k); } else { NewIdsAt(b, pairs, k - |a|); }
    }
  }

  lemma {:induction false} OrderRenamed<T>(f: Forest<T>, pairs: seq<(int, int)>)
    ensures Order(Rename(f, pairs)) == NewIds(Order(f), pairs)
  {
    if f.Cons? {
      OrderRenamed(f.kids, pairs);
      OrderRenamed(f.rest, pairs);
      NewIdsConcat([f.id], Order(f.kids), pairs);
      NewIdsConcat([f.id] + Order(f.kids), Order(f.rest), pairs);
      NewIdsAt([f.id], pairs, 0);
      assert NewIds([f.id], pairs) == [Subst(f.id, pairs)];
    }
  }

  lemma {:induction false} ListedRenamed(f: Forest<Item>, xs: seq<int>, pairs: seq<(int, int)>, n: nat)
    requires Injective(pairs, n) && Bounded(f, n) && forall k :: 0 <= k < |xs| ==> xs[k] <= n
    ensures ListedIds(Rename(f, pairs), NewIds(xs, pairs)) == NewIds(ListedIds(f, xs), pairs)
  {
    if xs != [] {
      ListedRenamed(f, xs[1..], pairs, n);
      RenameRemove(f, xs[0], pairs, n);
      OrderRenamed(Sub(f, xs[0]), pairs);
      NewIdsConcat(Order(Sub(f, xs[0])), ListedIds(f, xs[1..]), pairs);
      assert NewIds(xs, pairs)[1..] == NewIds(xs[1..], pairs);
    }
  }

  /** The same selection in a renamed forest is listed as the same entries renamed. */
  lemma {:induction false} EntriesRenamed(f: Forest<Item>, xs: seq<int>, pairs: seq<(int, int)>, n: nat)
    requires Wf(f) && Bounded(f, n) && Selected(f, xs) && Injective(pairs, n) && Subst(TOP, pairs) == TOP
    ensures Wf(Rename(f, pairs)) && Entries(Rename(f, pairs), NewIds(xs, pairs)) == Remapped(Entries(f, xs), pairs)
  {
    var g, ys := Rename(f, pairs), NewIds(xs, pairs);
    RenameWf(f, pairs, n);
    forall k | 0 <= k < |xs| ensures xs[k] <= n { assert xs[k] in Ids(f); }
    ListedRenamed(f, xs, pairs, n);
    forall k | 0 <= k < |ListedIds(f, xs)| ensures Entries(g, ys)[k] == Remapped(Entries(f, xs), pairs)[k] {
      EntriesAt(f, xs, k);
      EntriesAt(g, ys, k);
      NewIdsAt(ListedIds(f, xs), pairs, k);
      RenameRecord(f, ListedIds(f, xs)[k], pairs, n);
    }
  }

  /**
    With the entries below rebuilt items told apart, undo leaves the command as
    deleting the same items from the renamed forest would record it.
  */
  lemma {:induction false} UndoneIsRecorded(f: Forest<Item>, xs: seq<int>, n: nat)
    requires Wf(f) && Bounded(f, n) && Selected(f, xs) && TellApart(Entries(f, xs))
    ensures var pairs := Renamings(f, Outer(f, xs), n);
            && Wf(Rename(f, pairs))
            && RoundItems(Doc(Prune(f, xs), n), Entries(f, xs)) == Entries(Rename(f, pairs), NewIds(xs, pairs))
  {
    var zs := Outer(f, xs);
    EntriesFollow(f, xs, n);
    OuterFresh(f, xs, n);
    OldsBounded(f, zs, n);
    OldsFacts(f, zs);
    Untouched(TOP, Olds(f, zs), n);
    Simultaneous(Olds(f, zs), n);
    EntriesRenamed(f, xs, Renamings(f, zs, n), n);
  }
}
