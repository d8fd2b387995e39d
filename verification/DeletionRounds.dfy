/**
  Undoing a deletion and redoing it, any number of times: what is rebuilt, which
  ids the entries hold afterwards, and that redo removes exactly what undo put back.
*/
module DeletionRounds {
  import opened Forests
  import opened Renaming
  import opened EditorCommands
  import opened RestoreOrder
  import opened EditorDelete

  // ---------------------------------------------------------------- listings

  /** The entry's item hangs at the top or under a node that is not deleted. */
  predicate OnBase(h: Forest<Item>, x: Info) {
    x.parent == TOP || x.parent in Ids(h)
  }

  /** No other entry has this entry's id. */
  predicate Alone(items: seq<Info>, i: nat)
    requires i < |items|
  {
    forall j :: 0 <= j < |items| && j != i ==> items[j].item != items[i].item
  }

  ghost predicate Entered(h: Forest<Item>, n: nat, items: seq<Info>, i: nat)
    requires i < |items|
  {
    var x := items[i];
    && 0 < x.item <= n && x.item !in Ids(h)
    && if OnBase(h, x) then Single(x.snapshot) && x.snapshot.item.name == x.name && Alone(items, i)
       else Deleted(items, x.parent)
  }

  /**
    Entries for items that are gone from `h`: each hangs on `h`, and is then the
    only entry for its item, or under another entry.
  */
  ghost predicate Listing(h: Forest<Item>, n: nat, items: seq<Info>) {
    Wf(h) && Bounded(h, n) && forall i :: 0 <= i < |items| ==> Entered(h, n, items, i)
  }

  lemma {:induction false} BaseIsRoot(h: Forest<Item>, n: nat, items: seq<Info>, i: nat)
    requires Listing(h, n, items) && i < |items|
    ensures OnBase(h, items[i]) <==> IsRoot(items, items[i])
  {
    assert Entered(h, n, items, i);
    forall j | 0 <= j < |items| && items[j].item == items[i].parent ensures !OnBase(h, items[i]) {
      assert Entered(h, n, items, j);
    }
  }

  // ---------------------------------------------------------------- undo, entry by entry

  /** The document once the entries from `k` on are rebuilt. */
  function Grown(d: Doc, items: seq<Info>, k: nat): Doc
    requires k <= |items|
    decreases |items| - k
  {
    if k == |items| then d
    else
      var g, x := Grown(d, items, k + 1), items[k];
      if IsRoot(items, x) && Single(x.snapshot) then
        var t := Freshen(x.snapshot, g.maxId);
        Doc(Insert(g.forest, x.parent, x.pos, t), g.maxId + Size(t))
      else g
  }

  /** The tree entry `k` is rebuilt as. */
  function NewTree(d: Doc, items: seq<Info>, k: nat): (t: Forest<Item>)
    requires k < |items|
    ensures Single(items[k].snapshot) ==> Single(t)
  {
    Freshen(items[k].snapshot, Grown(d, items, k + 1).maxId)
  }

  function NewId(d: Doc, items: seq<Info>, k: nat): int
    requires k < |items|
  {
    Grown(d, items, k + 1).maxId + 1
  }

  /** The entries once those from `k` on are rebuilt. */
  function GrownItems(d: Doc, items: seq<Info>, k: nat): (r: seq<Info>)
    requires k <= |items|
    ensures |r| == |items|
    decreases |items| - k
  {
    if k == |items| then items
    else
      var s, x := GrownItems(d, items, k + 1), items[k];
      if IsRoot(items, x) && Single(x.snapshot) then IdsWritten(s, x, NewTree(d, items, k)) else s
  }

  function IdsWritten(s: seq<Info>, x: Info, t: Forest<Item>): (r: seq<Info>)
    requires Single(t)
    ensures |r| == |s|
  {
    var f := FirstWith(s, Key(x));
    if f == |s| then s
    else RenameKids(MoveAll(s[f := s[f].(item := t.id)], x.item, t.id), t.kids, t.id)
  }

  function GrownChanges(d: Doc, items: seq<Info>, k: nat): seq<(int, int)>
    requires k <= |items|
    decreases |items| - k
  {
    if k == |items| then []
    else if IsRoot(items, items[k]) && Single(items[k].snapshot) then
      GrownChanges(d, items, k + 1) + [(items[k].item, NewId(d, items, k))]
    else GrownChanges(d, items, k + 1)
  }

  lemma {:induction false} NewTreeId(d: Doc, items: seq<Info>, k: nat)
    requires k < |items| && Single(items[k].snapshot)
    ensures Single(NewTree(d, items, k)) && NewTree(d, items, k).id == NewId(d, items, k)
    ensures NewTree(d, items, k).item == items[k].snapshot.item
  {
  }

  lemma {:induction false} GrownFacts(h: Forest<Item>, n: nat, items: seq<Info>, k: nat)
    requires Listing(h, n, items) && k <= |items|
    ensures var g := Grown(Doc(h, n), items, k);
            && n <= g.maxId && Wf(g.forest) && Bounded(g.forest, g.maxId) && Ids(h) <= Ids(g.forest)
            && forall x :: x in Ids(g.forest) ==> x in Ids(h) || x > n
    decreases |items| - k
  {
    if k < |items| {
      var g, x := Grown(Doc(h, n), items, k + 1), items[k];
      GrownFacts(h, n, items, k + 1);
      if IsRoot(items, x) && Single(x.snapshot) {
        FreshenBeyond(x.snapshot, g.maxId, g.forest);
        InsertIds(g.forest, x.parent, x.pos, Freshen(x.snapshot, g.maxId));
      }
    }
  }

  lemma {:induction false} GrownMax(d: Doc, items: seq<Info>, j: nat, k: nat)
    requires j <= k <= |items|
    ensures Grown(d, items, k).maxId <= Grown(d, items, j).maxId
    decreases k - j
  {
    if j < k { GrownMax(d, items, j + 1, k); }
  }

  /** Later rebuilt trees lie beyond earlier ones. */
  lemma {:induction false} TreesApart(d: Doc, items: seq<Info>, j: nat, k: nat)
    requires j < k < |items| && IsRoot(items, items[k]) && Single(items[k].snapshot)
    ensures NewId(d, items, k) < NewId(d, items, j)
    ensures forall x :: x in Ids(NewTree(d, items, k)) ==> x < NewId(d, items, j)
  {
    GrownMax(d, items, j + 1, k);
    var t := items[k].snapshot;
    FreshenShape(t, Grown(d, items, k + 1).maxId);
    FreshenIds(t, Grown(d, items, k + 1).maxId);
  }

  // ---------------------------------------------------------------- what writing ids back keeps

  /** Some entry below a rebuilt item has this id. */
  ghost predicate Held(h: Forest<Item>, items: seq<Info>, s: seq<Info>, p: int) {
    exists e :: 0 <= e < |s| && e < |items| && !OnBase(h, items[e]) && s[e].item == p
  }

  /**
    Entry `i` while ids are written back: it keeps what it says about its item;
    below a rebuilt item it stays under one of the `anchors` or under another such
    entry, and takes no reserved id.
  */
  ghost predicate TrackedAt(h: Forest<Item>, items: seq<Info>, s: seq<Info>, anchors: set<int>, reserved: set<int>,
                            n: nat, i: nat)
    requires i < |items| == |s|
  {
    && s[i] == items[i].(item := s[i].item, parent := s[i].parent)
    && if OnBase(h, items[i]) then s[i].parent == items[i].parent
       else
         && 0 < s[i].item <= n && s[i].item !in Ids(h) && s[i].item !in reserved
         && (s[i].parent in anchors || Held(h, items, s, s[i].parent))
  }

  ghost predicate Tracked(h: Forest<Item>, items: seq<Info>, s: seq<Info>, anchors: set<int>, reserved: set<int>,
                          n: nat) {
    && |s| == |items|
    && (forall x :: x in reserved ==> x !in Ids(h) && x > 0)
    && anchors <= reserved
    && forall i :: 0 <= i < |items| ==> TrackedAt(h, items, s, anchors, reserved, n, i)
  }

  /** Only what hangs on the base keeps a parent there. */
  lemma {:induction false} TrackedParent(h: Forest<Item>, items: seq<Info>, s: seq<Info>, anchors: set<int>,
                                         reserved: set<int>,
                                         n: nat, i: nat)
    requires Tracked(h, items, s, anchors, reserved, n) && i < |items|
    ensures OnBase(h, s[i]) <==> OnBase(h, items[i])
  {
    assert TrackedAt(h, items, s, anchors, reserved, n, i);
    if !OnBase(h, items[i]) && s[i].parent !in anchors {
      var e :| 0 <= e < |s| && e < |items| && !OnBase(h, items[e]) && s[e].item == s[i].parent;
      assert TrackedAt(h, items, s, anchors, reserved, n, e);
    }
  }

  /** Giving one entry below a rebuilt item a new id, and moving what was under it along. */
  lemma {:induction false} RenameOne(h: Forest<Item>, items: seq<Info>, s: seq<Info>, k: nat, id: int,
                                     anchors: set<int>, reserved: set<int>, n: nat)
    requires Tracked(h, items, s, anchors, reserved, n) && k < |s| && !OnBase(h, items[k])
    requires 0 < id <= n && id !in Ids(h) && id !in reserved
    ensures var r := MoveAll(s[k := s[k].(item := id)], s[k].item, id);
            && Tracked(h, items, r, anchors, reserved, n)
            && forall i :: 0 <= i < |items| && OnBase(h, items[i]) ==> r[i] == s[i]
  {
    var was := s[k].item;
    var r := MoveAll(s[k := s[k].(item := id)], was, id);
    assert TrackedAt(h, items, s, anchors, reserved, n, k);
    forall i | 0 <= i < |items|
      ensures TrackedAt(h, items, r, anchors, reserved, n, i) && (OnBase(h, items[i]) ==> r[i] == s[i])
    {
      assert TrackedAt(h, items, s, anchors, reserved, n, i);
      if !OnBase(h, items[i]) && s[i].parent !in anchors {
        if s[i].parent == was {
          assert r[k].item == id;
        } else {
          var e :| 0 <= e < |s| && e < |items| && !OnBase(h, items[e]) && s[e].item == s[i].parent;
          assert r[e].item == s[i].parent;
        }
      }
    }
  }

  lemma {:induction false} RenameKidsKeeps(h: Forest<Item>, items: seq<Info>, s: seq<Info>, kids: Forest<Item>,
                                           parent: int,
                                           anchors: set<int>, reserved: set<int>, n: nat)
    requires Tracked(h, items, s, anchors, reserved, n) && parent != TOP && parent !in Ids(h)
    requires forall x :: x in Ids(kids) ==> 0 < x <= n && x !in Ids(h) && x !in reserved
    ensures Tracked(h, items, RenameKids(s, kids, parent), anchors, reserved, n)
    ensures forall i :: 0 <= i < |items| && OnBase(h, items[i]) ==> RenameKids(s, kids, parent)[i] == s[i]
    decreases kids
  {
    if kids.Cons? {
      var k := FirstWith(s, (kids.item.name, parent));
      var r := s;
      if k < |s| && s[k].item != kids.id {
        TrackedParent(h, items, s, anchors, reserved, n, k);
        assert kids.id in Ids(kids);
        var s1 := MoveAll(s[k := s[k].(item := kids.id)], s[k].item, kids.id);
        RenameOne(h, items, s, k, kids.id, anchors, reserved, n);
        RenameKidsKeeps(h, items, s1, kids.kids, kids.id, anchors, reserved, n);
        r := RenameKids(s1, kids.kids, kids.id);
      }
      RenameKidsKeeps(h, items, r, kids.rest, parent, anchors, reserved, n);
    }
  }

  // ---------------------------------------------------------------- the entries while undo goes on

  /** The id entry `j`'s item goes by once the entries from `k` on are rebuilt. */
  function Now(d: Doc, items: seq<Info>, k: nat, j: nat): int
    requires j < |items|
  {
    if j >= k then NewId(d, items, j) else items[j].item
  }

  function Anchors(d: Doc, items: seq<Info>, k: nat): set<int> {
    set j | 0 <= j < |items| && IsRoot(items, items[j]) :: Now(d, items, k, j)
  }

  /** The ids, old and new, of the items that are rebuilt themselves. */
  function Reserved(d: Doc, items: seq<Info>): set<int> {
    Anchors(d, items, 0) + Anchors(d, items, |items|)
  }

  predicate IsFirst(items: seq<Info>, i: nat)
    requires i < |items|
  {
    forall j :: 0 <= j < i ==> Key(items[j]) != Key(items[i])
  }

  /** A rebuilt item's own entry: the first with its name and parent gets the new id, any other keeps the old one. */
  ghost predicate RootAt(d: Doc, items: seq<Info>, s: seq<Info>, k: nat, i: nat)
    requires i < |items| == |s|
  {
    if !IsFirst(items, i) then s[i].item == items[i].item else i >= k ==> s[i].item == NewId(d, items, i)
  }

  ghost predicate Underway(h: Forest<Item>, n: nat, items: seq<Info>, s: seq<Info>, k: nat) {
    var d := Doc(h, n);
    && k <= |items|
    && Tracked(h, items, s, Anchors(d, items, k), Reserved(d, items), Grown(d, items, k).maxId)
    && forall i :: 0 <= i < |items| && IsRoot(items, items[i]) ==> RootAt(d, items, s, k, i)
  }

  ghost predicate GrownTracked(h: Forest<Item>, n: nat, items: seq<Info>, k: nat) {
    k <= |items| && Underway(h, n, items, GrownItems(Doc(h, n), items, k), k)
  }

  lemma {:induction false} NewIdBounds(h: Forest<Item>, n: nat, items: seq<Info>, j: nat)
    requires Listing(h, n, items) && j < |items|
    ensures NewId(Doc(h, n), items, j) > n && NewId(Doc(h, n), items, j) !in Ids(h)
  {
    GrownFacts(h, n, items, j + 1);
  }

  lemma {:induction false} ReservedFacts(h: Forest<Item>, n: nat, items: seq<Info>, k: nat)
    requires Listing(h, n, items) && k <= |items|
    ensures Anchors(Doc(h, n), items, k) <= Reserved(Doc(h, n), items)
    ensures forall x :: x in Reserved(Doc(h, n), items) ==> x !in Ids(h) && x > 0
  {
    var d := Doc(h, n);
    forall j | 0 <= j < |items| && IsRoot(items, items[j])
      ensures Now(d, items, 0, j) in Reserved(d, items) && Now(d, items, |items|, j) in Reserved(d, items)
      ensures NewId(d, items, j) !in Ids(h) && NewId(d, items, j) > 0 && items[j].item !in Ids(h) && items[j].item > 0
    {
      NewIdBounds(h, n, items, j);
      assert Entered(h, n, items, j);
    }
    forall x | x in Anchors(d, items, k) ensures x in Reserved(d, items) {
      var j :| 0 <= j < |items| && IsRoot(items, items[j]) && x == Now(d, items, k, j);
      assert x == Now(d, items, 0, j) || x == Now(d, items, |items|, j);
    }
  }

  lemma {:induction false} StartTracked(h: Forest<Item>, n: nat, items: seq<Info>)
    requires Listing(h, n, items)
    ensures GrownTracked(h, n, items, |items|)
  {
    assert GrownItems(Doc(h, n), items, |items|) == items;
    var d := Doc(h, n);
    ReservedFacts(h, n, items, |items|);
    forall i | 0 <= i < |items|
      ensures TrackedAt(h, items, items, Anchors(d, items, |items|), Reserved(d, items), n, i)
    {
      assert Entered(h, n, items, i);
      if !OnBase(h, items[i]) {
        StartInside(h, n, items, i);
      }
    }
  }

  lemma {:induction false} StartInside(h: Forest<Item>, n: nat, items: seq<Info>, i: nat)
    requires Listing(h, n, items) && i < |items| && !OnBase(h, items[i])
    ensures items[i].item !in Reserved(Doc(h, n), items)
    ensures items[i].parent in Anchors(Doc(h, n), items, |items|) || Held(h, items, items, items[i].parent)
  {
    var d := Doc(h, n);
    assert Entered(h, n, items, i);
    forall j | 0 <= j < |items| && IsRoot(items, items[j])
      ensures items[i].item != Now(d, items, 0, j) && items[i].item != items[j].item {
      NewIdBounds(h, n, items, j);
      BaseIsRoot(h, n, items, j);
      assert Entered(h, n, items, j);
    }
    var e :| 0 <= e < |items| && items[e].item == items[i].parent;
    BaseIsRoot(h, n, items, e);
    if OnBase(h, items[e]) { assert items[e].item == Now(d, items, |items|, e); }
  }

  /** The entry written for a rebuilt item is the first one with its name and parent. */
  lemma {:induction false} FirstRoot(h: Forest<Item>, n: nat, items: seq<Info>, s: seq<Info>, k: nat, f: nat)
    requires Listing(h, n, items) && k < |items| && OnBase(h, items[k]) && Underway(h, n, items, s, k + 1)
    requires f == FirstWith(s, Key(items[k]))
    ensures f <= k && OnBase(h, items[f]) && IsFirst(items, f) && Key(items[f]) == Key(items[k])
  {
    var d := Doc(h, n);
    var a, r, m := Anchors(d, items, k + 1), Reserved(d, items), Grown(d, items, k + 1).maxId;
    forall j | 0 <= j <= k ensures Key(items[j]) == Key(items[k]) <==> Key(s[j]) == Key(items[k]) {
      TrackedParent(h, items, s, a, r, m, j);
      assert TrackedAt(h, items, s, a, r, m, j);
    }
    assert Key(s[k]) == Key(items[k]);
    assert f <= k;
  }

  /** Writing a rebuilt item's id, and moving what was listed under it. */
  lemma {:induction false} MoveRoot(h: Forest<Item>, n: nat, items: seq<Info>, s: seq<Info>, k: nat, f: nat, id: int)
    requires Listing(h, n, items) && k < |items| && OnBase(h, items[k]) && Underway(h, n, items, s, k + 1)
    requires f < |s| && OnBase(h, items[f]) && id == NewId(Doc(h, n), items, k)
    ensures var d := Doc(h, n); var r := MoveAll(s[f := s[f].(item := id)], items[k].item, id);
            && Tracked(h, items, r, Anchors(d, items, k), Reserved(d, items), Grown(d, items, k).maxId)
            && forall i :: 0 <= i < |items| && OnBase(h, items[i]) ==>
                r[i] == if i == f then s[i].(item := id) else s[i]
  {
    var d, x := Doc(h, n), items[k];
    var r := MoveAll(s[f := s[f].(item := id)], x.item, id);
    var a, a', all := Anchors(d, items, k + 1), Anchors(d, items, k), Reserved(d, items);
    var m, m' := Grown(d, items, k + 1).maxId, Grown(d, items, k).maxId;
    GrownMax(d, items, k, k + 1);
    ReservedFacts(h, n, items, k);
    BaseIsRoot(h, n, items, k);
    assert Entered(h, n, items, k);
    assert id == Now(d, items, k, k);
    forall p | p in a && p != x.item ensures p in a' {
      var j :| 0 <= j < |items| && IsRoot(items, items[j]) && p == Now(d, items, k + 1, j);
      assert p == Now(d, items, k, j);
    }
    forall i | 0 <= i < |items|
      ensures TrackedAt(h, items, r, a', all, m', i)
      ensures OnBase(h, items[i]) ==> r[i] == if i == f then s[i].(item := id) else s[i]
    {
      assert TrackedAt(h, items, s, a, all, m, i);
      if !OnBase(h, items[i]) && s[i].parent !in a {
        var e :| 0 <= e < |s| && e < |items| && !OnBase(h, items[e]) && s[e].item == s[i].parent;
        assert r[e].item == s[e].item;
      }
    }
  }

  lemma {:induction false} KidsUnreserved(h: Forest<Item>, n: nat, items: seq<Info>, k: nat)
    requires Listing(h, n, items) && k < |items| && OnBase(h, items[k]) && Single(items[k].snapshot)
    ensures var d := Doc(h, n); var t := NewTree(d, items, k);
            && IsRoot(items, items[k]) && t.id == NewId(d, items, k)
            && forall x :: x in Ids(t.kids) ==>
                0 < x <= Grown(d, items, k).maxId && x !in Ids(h) && x !in Reserved(d, items)
  {
    var d, t := Doc(h, n), NewTree(Doc(h, n), items, k);
    BaseIsRoot(h, n, items, k);
    GrownFacts(h, n, items, k + 1);
    FreshenBeyond(items[k].snapshot, Grown(d, items, k + 1).maxId, Grown(d, items, k + 1).forest);
    forall x | x in Ids(t.kids) ensures 0 < x <= Grown(d, items, k).maxId && x !in Ids(h) && x !in Reserved(d, items) {
      assert x in Ids(t) && x != t.id;
      forall j | 0 <= j < |items| && IsRoot(items, items[j]) ensures x != NewId(d, items, j) && x != items[j].item {
        BaseIsRoot(h, n, items, j);
        assert Entered(h, n, items, j);
        if j < k { TreesApart(d, items, j, k); }
        if k < j { GrownMax(d, items, k + 1, j + 1); }
      }
    }
  }

  lemma {:induction false} RootStep(h: Forest<Item>, n: nat, items: seq<Info>, k: nat)
    requires Listing(h, n, items) && k < |items| && OnBase(h, items[k])
    requires GrownTracked(h, n, items, k + 1)
    ensures GrownTracked(h, n, items, k)
  {
    var d, s, x := Doc(h, n), GrownItems(Doc(h, n), items, k + 1), items[k];
    var f := FirstWith(s, Key(x));
    assert Entered(h, n, items, k);
    KidsUnreserved(h, n, items, k);
    NewIdBounds(h, n, items, k);
    FirstRoot(h, n, items, s, k, f);
    var t := NewTree(d, items, k);
    MoveRoot(h, n, items, s, k, f, t.id);
    var s1 := MoveAll(s[f := s[f].(item := t.id)], x.item, t.id);
    var s2 := RenameKids(s1, t.kids, t.id);
    RenameKidsKeeps(h, items, s1, t.kids, t.id, Anchors(d, items, k), Reserved(d, items), Grown(d, items, k).maxId);
    assert s2 == GrownItems(d, items, k);
    forall i | 0 <= i < |items| && IsRoot(items, items[i]) ensures RootAt(d, items, s2, k, i) {
      BaseIsRoot(h, n, items, i);
      assert RootAt(d, items, s, k + 1, i);
    }
  }

  lemma {:induction false} SameAnchors(d: Doc, items: seq<Info>, k: nat)
    requires k < |items| && !IsRoot(items, items[k])
    ensures Anchors(d, items, k) == Anchors(d, items, k + 1)
  {
    forall x | x in Anchors(d, items, k) ensures x in Anchors(d, items, k + 1) {
      var j :| 0 <= j < |items| && IsRoot(items, items[j]) && x == Now(d, items, k, j);
      assert x == Now(d, items, k + 1, j);
    }
    forall x | x in Anchors(d, items, k + 1) ensures x in Anchors(d, items, k) {
      var j :| 0 <= j < |items| && IsRoot(items, items[j]) && x == Now(d, items, k + 1, j);
      assert x == Now(d, items, k, j);
    }
  }

  lemma {:induction false} OtherStep(h: Forest<Item>, n: nat, items: seq<Info>, k: nat)
    requires Listing(h, n, items) && k < |items| && !OnBase(h, items[k])
    requires GrownTracked(h, n, items, k + 1)
    ensures GrownTracked(h, n, items, k)
  {
    var d, s := Doc(h, n), GrownItems(Doc(h, n), items, k + 1);
    BaseIsRoot(h, n, items, k);
    SameAnchors(d, items, k);
    assert GrownItems(d, items, k) == s && Grown(d, items, k) == Grown(d, items, k + 1);
    forall i | 0 <= i < |items| && IsRoot(items, items[i]) ensures RootAt(d, items, s, k, i) {
      assert RootAt(d, items, s, k + 1, i);
    }
  }

  lemma {:induction false} TrackedStep(h: Forest<Item>, n: nat, items: seq<Info>, k: nat, k1: nat)
    requires Listing(h, n, items) && k < |items| && k1 == k + 1 && GrownTracked(h, n, items, k1)
    ensures GrownTracked(h, n, items, k)
  {
    if OnBase(h, items[k]) { RootStep(h, n, items, k); } else { OtherStep(h, n, items, k); }
  }

  lemma {:induction false} TrackedDown(h: Forest<Item>, n: nat, items: seq<Info>, k: nat, from: nat)
    requires Listing(h, n, items) && k <= from && GrownTracked(h, n, items, from)
    ensures GrownTracked(h, n, items, k)
    decreases from
  {
    if k < from {
      var j: nat := from - 1;
      TrackedStep(h, n, items, j, from);
      TrackedDown(h, n, items, k, j);
    }
  }

  /** Where undo writes the new ids, while the entries from `k` on are being rebuilt. */
  lemma {:induction false} WhereWritten(h: Forest<Item>, n: nat, items: seq<Info>, k: nat)
    requires Listing(h, n, items) && k <= |items|
    ensures GrownTracked(h, n, items, k)
  {
    StartTracked(h, n, items);
    TrackedDown(h, n, items, k, |items|);
  }

  // ---------------------------------------------------------------- the stack's walk over the id changes

  lemma {:induction false} SubstAppend(x: int, a: seq<(int, int)>, b: seq<(int, int)>)
    ensures Subst(x, a + b) == Subst(Subst(x, a), b)
    decreases |a|
  {
    if a == [] {
      assert a + b == b;
    } else {
      assert (a + b)[1..] == a[1..] + b;
      SubstAppend(if x == a[0].0 then a[0].1 else x, a[1..], b);
    }
  }

  /** The changes rename no id but those of the items rebuilt themselves. */
  lemma {:induction false} ChangesLeave(d: Doc, items: seq<Info>, k: nat, x: int)
    requires k <= |items| && forall j :: 0 <= j < |items| && IsRoot(items, items[j]) ==> x != items[j].item
    ensures Subst(x, GrownChanges(d, items, k)) == x
    decreases |items| - k
  {
    if k < |items| {
      ChangesLeave(d, items, k + 1, x);
      if IsRoot(items, items[k]) && Single(items[k].snapshot) {
        SubstAppend(x, GrownChanges(d, items, k + 1), [(items[k].item, NewId(d, items, k))]);
        SubstOne(x, (items[k].item, NewId(d, items, k)));
      }
    }
  }

  lemma {:induction false} ChangesGive(h: Forest<Item>, n: nat, items: seq<Info>, k: nat, j: nat)
    requires Listing(h, n, items) && k <= |items| && j < |items| && IsRoot(items, items[j])
    ensures Subst(items[j].item, GrownChanges(Doc(h, n), items, k)) == Now(Doc(h, n), items, k, j)
    decreases |items| - k
  {
    var d := Doc(h, n);
    if k < |items| {
      ChangesGive(h, n, items, k + 1, j);
      assert Entered(h, n, items, k) && Entered(h, n, items, j);
      BaseIsRoot(h, n, items, k);
      BaseIsRoot(h, n, items, j);
      NewIdBounds(h, n, items, j);
      if OnBase(h, items[k]) {
        SubstAppend(items[j].item, GrownChanges(d, items, k + 1), [(items[k].item, NewId(d, items, k))]);
        SubstOne(Now(d, items, k + 1, j), (items[k].item, NewId(d, items, k)));
      }
    }
  }

  /** The entries after undo: everything rebuilt itself has its new id, everything else is below something listed. */
  ghost predicate Back(h: Forest<Item>, n: nat, items: seq<Info>, s: seq<Info>) {
    var d := Doc(h, n);
    && Tracked(h, items, s, Anchors(d, items, 0), Reserved(d, items), Grown(d, items, 0).maxId)
    && forall i :: 0 <= i < |items| && IsRoot(items, items[i]) ==> s[i].item == NewId(d, items, i)
  }

  /** The entries after undo and the stack's walk. */
  function RoundItems(d: Doc, items: seq<Info>): (r: seq<Info>)
    ensures |r| == |items|
  {
    Remapped(GrownItems(d, items, 0), GrownChanges(d, items, 0))
  }

  /** The walk changes nothing but the entries undo missed because another has the same name and parent. */
  lemma {:induction false} WalkAt(h: Forest<Item>, n: nat, items: seq<Info>, i: nat)
    requires Listing(h, n, items) && i < |items|
    ensures var d := Doc(h, n); var s := GrownItems(d, items, 0);
            RoundItems(d, items)[i] == if IsRoot(items, items[i]) then s[i].(item := NewId(d, items, i)) else s[i]
  {
    var d, s := Doc(h, n), GrownItems(Doc(h, n), items, 0);
    var pairs := GrownChanges(d, items, 0);
    WhereWritten(h, n, items, 0);
    BaseIsRoot(h, n, items, i);
    assert TrackedAt(h, items, s, Anchors(d, items, 0), Reserved(d, items), Grown(d, items, 0).maxId, i);
    forall j | 0 <= j < |items| && IsRoot(items, items[j])
      ensures items[j].item in Reserved(d, items) && s[i].parent != items[j].item {
      assert items[j].item == Now(d, items, |items|, j);
      assert Entered(h, n, items, j);
      NotAnOld(h, n, items, s, i, j);
    }
    ChangesLeave(d, items, 0, s[i].parent);
    if IsRoot(items, items[i]) {
      assert RootAt(d, items, s, 0, i);
      ChangesGive(h, n, items, 0, i);
      NewIdBounds(h, n, items, i);
      forall j | 0 <= j < |items| ensures items[j].item <= n { assert Entered(h, n, items, j); }
      ChangesLeave(d, items, 0, NewId(d, items, i));
    } else {
      ChangesLeave(d, items, 0, s[i].item);
    }
  }

  /** Once everything is rebuilt, no entry is under an old id. */
  lemma {:induction false} NotAnOld(h: Forest<Item>, n: nat, items: seq<Info>, s: seq<Info>, i: nat, j: nat)
    requires Listing(h, n, items) && i < |items| && j < |items| && IsRoot(items, items[j])
    requires Underway(h, n, items, s, 0)
    ensures s[i].parent != items[j].item
  {
    var d := Doc(h, n);
    assert TrackedAt(h, items, s, Anchors(d, items, 0), Reserved(d, items), Grown(d, items, 0).maxId, i);
    assert Entered(h, n, items, j);
    if !OnBase(h, items[i]) {
      if s[i].parent in Anchors(d, items, 0) {
        var m :| 0 <= m < |items| && IsRoot(items, items[m]) && s[i].parent == Now(d, items, 0, m);
        NewIdBounds(h, n, items, m);
      } else {
        var e :| 0 <= e < |s| && e < |items| && !OnBase(h, items[e]) && s[e].item == s[i].parent;
        assert TrackedAt(h, items, s, Anchors(d, items, 0), Reserved(d, items), Grown(d, items, 0).maxId, e);
        assert items[j].item == Now(d, items, |items|, j);
      }
    }
  }

  lemma {:induction false} WalkedBack(h: Forest<Item>, n: nat, items: seq<Info>)
    requires Listing(h, n, items)
    ensures Back(h, n, items, RoundItems(Doc(h, n), items))
  {
    var d, s, r := Doc(h, n), GrownItems(Doc(h, n), items, 0), RoundItems(Doc(h, n), items);
    var a, all, m := Anchors(d, items, 0), Reserved(d, items), Grown(d, items, 0).maxId;
    WhereWritten(h, n, items, 0);
    forall i | 0 <= i < |items| ensures TrackedAt(h, items, r, a, all, m, i)
                                     && (IsRoot(items, items[i]) ==> r[i].item == NewId(d, items, i))
    {
      WalkAt(h, n, items, i);
      BaseIsRoot(h, n, items, i);
      assert TrackedAt(h, items, s, a, all, m, i);
      if !OnBase(h, items[i]) && s[i].parent !in a {
        var e :| 0 <= e < |s| && e < |items| && !OnBase(h, items[e]) && s[e].item == s[i].parent;
        WalkAt(h, n, items, e);
        BaseIsRoot(h, n, items, e);
        assert r[e].item == r[i].parent;
      }
    }
  }

  // ---------------------------------------------------------------- redo

  /** After undo the same entries as before stand for items to be handled themselves. */
  lemma {:induction false} BackRoots(h: Forest<Item>, n: nat, items: seq<Info>, s: seq<Info>, i: nat)
    requires Listing(h, n, items) && Back(h, n, items, s) && i < |items|
    ensures IsRoot(s, s[i]) <==> OnBase(h, items[i])
    ensures s[i].item !in Ids(h) && s[i].item > 0
    ensures !OnBase(h, items[i]) ==> !OnBase(h, s[i])
  {
    var d := Doc(h, n);
    var a, all, m := Anchors(d, items, 0), Reserved(d, items), Grown(d, items, 0).maxId;
    TrackedParent(h, items, s, a, all, m, i);
    forall e | 0 <= e < |s| ensures s[e].item !in Ids(h) && s[e].item > 0 {
      assert TrackedAt(h, items, s, a, all, m, e);
      BaseIsRoot(h, n, items, e);
      if OnBase(h, items[e]) { NewIdBounds(h, n, items, e); }
    }
    assert TrackedAt(h, items, s, a, all, m, i);
    if !OnBase(h, items[i]) && s[i].parent in a {
      var j :| 0 <= j < |items| && IsRoot(items, items[j]) && s[i].parent == Now(d, items, 0, j);
      assert s[j].item == s[i].parent;
    }
  }

  lemma {:induction false} RedoBack(h: Forest<Item>, n: nat, items: seq<Info>, s: seq<Info>, k: nat)
    requires Listing(h, n, items) && Back(h, n, items, s) && k <= |items|
    ensures Redone(Grown(Doc(h, n), items, k).forest, s, s[k..]) == h
    decreases |items| - k
  {
    if k < |items| {
      var d, x := Doc(h, n), items[k];
      RedoBack(h, n, items, s, k + 1);
      BackRoots(h, n, items, s, k);
      BaseIsRoot(h, n, items, k);
      assert s[k..][0] == s[k] && s[k..][1..] == s[k + 1..];
      if OnBase(h, x) {
        var g, t := Grown(d, items, k + 1), NewTree(d, items, k);
        assert Entered(h, n, items, k);
        assert TrackedAt(h, items, s, Anchors(d, items, 0), Reserved(d, items), Grown(d, items, 0).maxId, k);
        GrownFacts(h, n, items, k + 1);
        NewTreeId(d, items, k);
        RemoveInsert(g.forest, x.parent, x.pos, t);
        InsertIds(g.forest, x.parent, x.pos, t);
        assert t.id in Ids(t);
      }
    }
  }

  /** Redo after undo, through the stack, is back at the forest the deletion had left. */
  lemma {:induction false} RedoExact(h: Forest<Item>, n: nat, items: seq<Info>)
    requires Listing(h, n, items)
    ensures var d := Doc(h, n); var s := RoundItems(d, items);
            Redone(Grown(d, items, 0).forest, s, s) == h
  {
    var s := RoundItems(Doc(h, n), items);
    WalkedBack(h, n, items);
    RedoBack(h, n, items, s, 0);
    assert s[0..] == s;
  }

  // ---------------------------------------------------------------- the command without the stack

  /** A path from the top to `x` passes through nodes of `b` alone. */
  ghost predicate Reach<T>(f: Forest<T>, b: set<int>, x: int) {
    f.Cons? && (f.id == x || (f.id in b && Reach(f.kids, b, x)) || Reach(f.rest, b, x))
  }

  lemma {:induction false} ReachIn<T>(f: Forest<T>, b: set<int>, x: int)
    requires Reach(f, b, x)
    ensures x in Ids(f)
  {
    if f.id != x { if f.id in b && Reach(f.kids, b, x) { ReachIn(f.kids, b, x); } else { ReachIn(f.rest, b, x); } }
  }

  lemma {:induction false} ReachAll<T>(f: Forest<T>, b: set<int>, x: int)
    requires Ids(f) <= b && x in Ids(f)
    ensures Reach(f, b, x)
  {
    if f.id != x { if x in Ids(f.kids) { ReachAll(f.kids, b, x); } else { ReachAll(f.rest, b, x); } }
  }

  lemma {:induction false} ReachRemove<T>(f: Forest<T>, b: set<int>, x: int, y: int)
    requires Reach(f, b, x) && y !in b && y != x
    ensures Reach(Remove(f, y), b, x)
  {
    if f.id != x && f.id != y {
      if f.id in b && Reach(f.kids, b, x) { ReachRemove(f.kids, b, x, y); } else { ReachRemove(f.rest, b, x, y); }
    }
  }

  lemma {:induction false} ReachHere<T>(f: Forest<T>, pos: int, t: Forest<T>, b: set<int>, x: int)
    requires Single(t)
    ensures Reach(InsertHere(f, pos, t), b, t.id)
    ensures Reach(f, b, x) ==> Reach(InsertHere(f, pos, t), b, x)
  {
    if f.Cons? && pos > 0 { ReachHere(f.rest, pos - 1, t, b, x); }
  }

  lemma {:induction false} ReachUnder<T>(f: Forest<T>, parent: int, pos: int, t: Forest<T>, b: set<int>, x: int)
    requires Single(t)
    ensures Reach(f, b, x) ==> Reach(InsertUnder(f, parent, pos, t), b, x)
    ensures Reach(f, b, parent) && parent in b ==> Reach(InsertUnder(f, parent, pos, t), b, t.id)
  {
    if f.Cons? {
      ReachHere(f.kids, pos, t, b, x);
      ReachUnder(f.kids, parent, pos, t, b, x);
      ReachUnder(f.rest, parent, pos, t, b, x);
    }
  }

  lemma {:induction false} GrownReach(h: Forest<Item>, n: nat, items: seq<Info>, k: nat, x: int)
    requires Listing(h, n, items) && k <= |items|
    requires x in Ids(h) || exists j :: k <= j < |items| && IsRoot(items, items[j]) && x == NewId(Doc(h, n), items, j)
    ensures Reach(Grown(Doc(h, n), items, k).forest, Ids(h), x)
    decreases |items| - k
  {
    var d, b := Doc(h, n), Ids(h);
    if k == |items| {
      ReachAll(h, b, x);
    } else {
      BaseIsRoot(h, n, items, k);
      if OnBase(h, items[k]) {
        var g, t := Grown(d, items, k + 1), NewTree(d, items, k);
        var parent, pos := items[k].parent, items[k].pos;
        assert Entered(h, n, items, k);
        NewTreeId(d, items, k);
        GrownFacts(h, n, items, k + 1);
        if parent in b { GrownReach(h, n, items, k + 1, parent); }
        if x != t.id { GrownReach(h, n, items, k + 1, x); }
        ReachHere(g.forest, pos, t, b, x);
        ReachUnder(g.forest, parent, pos, t, b, x);
      } else {
        GrownReach(h, n, items, k + 1, x);
      }
    }
  }

  lemma {:induction false} RedoneReach(f: Forest<Item>, b: set<int>, s: seq<Info>, rest: seq<Info>, x: int)
    requires Reach(f, b, x) && forall i :: 0 <= i < |rest| ==> rest[i].item !in b && rest[i].item != x
    ensures Reach(Redone(f, s, rest), b, x)
    decreases |rest|
  {
    if rest != [] {
      var y := rest[0].item;
      ReachRemove(f, b, x, y);
      var stays := !IsRoot(s, rest[0]) || y !in Ids(f) || Sub(f, y).item.name != rest[0].name;
      RedoneReach(if stays then f else Remove(f, y), b, s, rest[1..], x);
    }
  }

  /** No two of the items rebuilt themselves share name and parent. */
  ghost predicate DistinctRoots(items: seq<Info>) {
    forall i :: 0 <= i < |items| && IsRoot(items, items[i]) ==> IsFirst(items, i)
  }

  lemma {:induction false} AloneBack(h: Forest<Item>, n: nat, items: seq<Info>)
    requires Listing(h, n, items) && DistinctRoots(items)
    ensures Back(h, n, items, GrownItems(Doc(h, n), items, 0))
  {
    var d, s := Doc(h, n), GrownItems(Doc(h, n), items, 0);
    WhereWritten(h, n, items, 0);
    forall i | 0 <= i < |items| && IsRoot(items, items[i]) ensures s[i].item == NewId(d, items, i) {
      assert RootAt(d, items, s, 0, i);
    }
  }

  /** No entry ends up with the new id of an item whose entry is not the first of its name and parent. */
  lemma {:induction false} NobodyHas(h: Forest<Item>, n: nat, items: seq<Info>, j: nat, i: nat)
    requires Listing(h, n, items) && j < |items| && IsRoot(items, items[j]) && !IsFirst(items, j) && i < |items|
    ensures var s := GrownItems(Doc(h, n), items, 0); s[i].item !in Ids(h) && s[i].item != NewId(Doc(h, n), items, j)
  {
    var d, s := Doc(h, n), GrownItems(Doc(h, n), items, 0);
    WhereWritten(h, n, items, 0);
    BaseIsRoot(h, n, items, i);
    NewIdBounds(h, n, items, j);
    assert Entered(h, n, items, i) && Entered(h, n, items, j);
    if OnBase(h, items[i]) {
      assert RootAt(d, items, s, 0, i);
      NewIdBounds(h, n, items, i);
      BaseIsRoot(h, n, items, j);
      if IsFirst(items, i) {
        if i < j { TreesApart(d, items, i, j); }
        if j < i { TreesApart(d, items, j, i); }
      }
    } else {
      assert TrackedAt(h, items, s, Anchors(d, items, 0), Reserved(d, items), Grown(d, items, 0).maxId, i);
      assert NewId(d, items, j) == Now(d, items, 0, j);
    }
  }

  /**
    By itself, without the walk, the command's redo is back at the forest the
    deletion had left precisely when no two of the items it rebuilds itself share
    both name and parent.
  */
  lemma {:induction false} RedoAlone(h: Forest<Item>, n: nat, items: seq<Info>)
    requires Listing(h, n, items)
    ensures var d := Doc(h, n); var s := GrownItems(d, items, 0);
            Redone(Grown(d, items, 0).forest, s, s) == h <==> DistinctRoots(items)
  {
    var d, s := Doc(h, n), GrownItems(Doc(h, n), items, 0);
    assert s[0..] == s;
    if DistinctRoots(items) {
      AloneBack(h, n, items);
      RedoBack(h, n, items, s, 0);
    } else {
      var j :| 0 <= j < |items| && IsRoot(items, items[j]) && !IsFirst(items, j);
      var x := NewId(d, items, j);
      GrownReach(h, n, items, 0, x);
      forall i | 0 <= i < |s| ensures s[i].item !in Ids(h) && s[i].item != x { NobodyHas(h, n, items, j, i); }
      RedoneReach(Grown(d, items, 0).forest, Ids(h), s, s, x);
      ReachIn(Redone(Grown(d, items, 0).forest, s, s), Ids(h), x);
      NewIdBounds(h, n, items, j);
    }
  }

  // ---------------------------------------------------------------- again and again

  /** The same forest, up to the ids of nodes outside `b`. */
  ghost predicate Alike<T>(f: Forest<T>, g: Forest<T>, b: set<int>) {
    if f.Nil? then g.Nil?
    else
      && g.Cons? && f.item == g.item && (f.id == g.id || (f.id !in b && g.id !in b))
      && Alike(f.kids, g.kids, b) && Alike(f.rest, g.rest, b)
  }

  lemma {:induction false} AlikeSelf<T>(f: Forest<T>, b: set<int>)
    ensures Alike(f, f, b)
  {
    if f.Cons? {
      AlikeSelf(f.kids, b);
      AlikeSelf(f.rest, b);
    }
  }

  lemma {:induction false} AlikeTrans<T>(f: Forest<T>, g: Forest<T>, k: Forest<T>, b: set<int>)
    requires Alike(f, g, b) && Alike(g, k, b)
    ensures Alike(f, k, b)
  {
    if f.Cons? {
      AlikeTrans(f.kids, g.kids, k.kids, b);
      AlikeTrans(f.rest, g.rest, k.rest, b);
    }
  }

  lemma {:induction false} AlikeErase<T>(f: Forest<T>, g: Forest<T>, b: set<int>)
    requires Alike(f, g, b)
    ensures Erase(f) == Erase(g) && forall x :: x in b ==> (x in Ids(f) <==> x in Ids(g))
  {
    if f.Cons? {
      AlikeErase(f.kids, g.kids, b);
      AlikeErase(f.rest, g.rest, b);
    }
  }

  lemma {:induction false} AlikeFreshen<T>(f: Forest<T>, n: nat, m: nat, b: set<int>)
    requires forall x :: x in b ==> x <= n && x <= m
    ensures Alike(Freshen(f, n), Freshen(f, m), b)
  {
    if f.Cons? {
      AlikeFreshen(f.kids, n + 1, m + 1, b);
      AlikeFreshen(f.rest, n + 1 + Size(f.kids), m + 1 + Size(f.kids), b);
    }
  }

  lemma {:induction false} AlikeHere<T>(f: Forest<T>, g: Forest<T>, pos: int, t: Forest<T>, u: Forest<T>, b: set<int>)
    requires Single(t) && Single(u) && Alike(f, g, b) && Alike(t, u, b)
    ensures Alike(InsertHere(f, pos, t), InsertHere(g, pos, u), b)
  {
    if f.Cons? && pos > 0 { AlikeHere(f.rest, g.rest, pos - 1, t, u, b); }
  }

  lemma {:induction false} AlikeUnder<T>(f: Forest<T>, g: Forest<T>, parent: int, pos: int, t: Forest<T>, u: Forest<T>,
                                         b: set<int>)
    requires Single(t) && Single(u) && Alike(f, g, b) && Alike(t, u, b) && parent in b
    ensures Alike(InsertUnder(f, parent, pos, t), InsertUnder(g, parent, pos, u), b)
  {
    if f.Cons? {
      AlikeHere(f.kids, g.kids, pos, t, u, b);
      AlikeUnder(f.kids, g.kids, parent, pos, t, u, b);
      AlikeUnder(f.rest, g.rest, parent, pos, t, u, b);
    }
  }

  /** The same entries hang on the base, and say the same about their items. */
  ghost predicate SameRoots(h: Forest<Item>, items: seq<Info>, s: seq<Info>) {
    |s| == |items| && forall i :: 0 <= i < |items| ==>
      && (OnBase(h, items[i]) <==> OnBase(h, s[i]))
      && (OnBase(h, items[i]) ==> s[i] == items[i].(item := s[i].item))
  }

  /** What is rebuilt depends on the ids in use only through its own ids. */
  lemma {:induction false} GrownAlike(h: Forest<Item>, n: nat, items: seq<Info>, m: nat, s: seq<Info>, k: nat)
    requires Listing(h, n, items) && Listing(h, m, s) && SameRoots(h, items, s) && k <= |items|
    ensures Alike(Grown(Doc(h, n), items, k).forest, Grown(Doc(h, m), s, k).forest, Ids(h))
    decreases |items| - k
  {
    if k == |items| {
      AlikeSelf(h, Ids(h));
    } else {
      GrownAlike(h, n, items, m, s, k + 1);
      BaseIsRoot(h, n, items, k);
      BaseIsRoot(h, m, s, k);
      if OnBase(h, items[k]) {
        assert Entered(h, n, items, k);
        var f, g := Grown(Doc(h, n), items, k + 1), Grown(Doc(h, m), s, k + 1);
        var t, u := NewTree(Doc(h, n), items, k), NewTree(Doc(h, m), s, k);
        GrownFacts(h, n, items, k + 1);
        GrownFacts(h, m, s, k + 1);
        AlikeFreshen(items[k].snapshot, f.maxId, g.maxId, Ids(h));
        AlikeHere(f.forest, g.forest, items[k].pos, t, u, Ids(h));
        if items[k].parent in Ids(h) {
          AlikeUnder(f.forest, g.forest, items[k].parent, items[k].pos, t, u, Ids(h));
        }
      }
    }
  }

  /** After undo the entries are again entries for items that redo takes out of the base. */
  lemma {:induction false} ListingAgain(h: Forest<Item>, n: nat, items: seq<Info>)
    requires Listing(h, n, items)
    ensures var d := Doc(h, n);
            Listing(h, Grown(d, items, 0).maxId, RoundItems(d, items)) && SameRoots(h, items, RoundItems(d, items))
  {
    var d, s, m := Doc(h, n), RoundItems(Doc(h, n), items), Grown(Doc(h, n), items, 0).maxId;
    WalkedBack(h, n, items);
    GrownFacts(h, n, items, 0);
    forall i | 0 <= i < |items|
      ensures Entered(h, m, s, i) && (OnBase(h, items[i]) <==> OnBase(h, s[i]))
      ensures OnBase(h, items[i]) ==> s[i] == items[i].(item := s[i].item)
    {
      BackRoots(h, n, items, s, i);
      BaseIsRoot(h, n, items, i);
      assert Entered(h, n, items, i);
      assert TrackedAt(h, items, s, Anchors(d, items, 0), Reserved(d, items), m, i);
      if OnBase(h, items[i]) {
        GrownMax(d, items, 0, i);
        NewAlone(h, n, items, s, i);
      }
    }
  }

  lemma {:induction false} NewAlone(h: Forest<Item>, n: nat, items: seq<Info>, s: seq<Info>, i: nat)
    requires Listing(h, n, items) && Back(h, n, items, s) && i < |items| && OnBase(h, items[i])
    ensures Alone(s, i) && s[i].item <= Grown(Doc(h, n), items, 0).maxId
  {
    var d := Doc(h, n);
    BaseIsRoot(h, n, items, i);
    forall j | 0 <= j < |s| && j != i ensures s[j].item != s[i].item {
      BaseIsRoot(h, n, items, j);
      assert Entered(h, n, items, i) && Entered(h, n, items, j);
      if OnBase(h, items[j]) {
        if i < j { TreesApart(d, items, i, j); } else { TreesApart(d, items, j, i); }
      } else {
        assert TrackedAt(h, items, s, Anchors(d, items, 0), Reserved(d, items), Grown(d, items, 0).maxId, j);
        assert s[i].item == Now(d, items, 0, i);
      }
    }
    assert Entered(h, n, items, i);
    GrownMax(d, items, 0, i);
    FreshenShape(items[i].snapshot, Grown(d, items, i + 1).maxId);
  }

  /** `m` rounds of undo and redo. */
  function Rounds(d: Doc, items: seq<Info>, m: nat): (Doc, seq<Info>)
    decreases m
  {
    if m == 0 then (d, items)
    else
      var u, s := Grown(d, items, 0), RoundItems(d, items);
      Rounds(Doc(Redone(u.forest, s, s), u.maxId), s, m - 1)
  }

  /**
    After any number of rounds the items are gone again and nothing else is, and
    one more undo rebuilds what the first one did, everything that was kept under
    its own id.
  */
  lemma {:induction false} RoundAndRound(h: Forest<Item>, n: nat, items: seq<Info>, m: nat)
    requires Listing(h, n, items)
    ensures var (d, s) := Rounds(Doc(h, n), items, m);
            && d.forest == h && Listing(h, d.maxId, s)
            && Alike(Grown(Doc(h, n), items, 0).forest, Grown(d, s, 0).forest, Ids(h))
    decreases m
  {
    if m == 0 {
      AlikeSelf(Grown(Doc(h, n), items, 0).forest, Ids(h));
    } else {
      var u, s := Grown(Doc(h, n), items, 0), RoundItems(Doc(h, n), items);
      RedoExact(h, n, items);
      ListingAgain(h, n, items);
      GrownAlike(h, n, items, u.maxId, s, 0);
      RoundAndRound(h, u.maxId, s, m - 1);
      var (d, last) := Rounds(Doc(h, n), items, m);
      AlikeTrans(u.forest, Grown(Doc(h, u.maxId), s, 0).forest, Grown(d, last, 0).forest, Ids(h));
    }
  }

  // ---------------------------------------------------------------- redo in any document

  /** The listed item is not inside another one, and is there under the name it had. */
  predicate Goes(f: Forest<Item>, all: seq<Info>, x: Info) {
    IsRoot(all, x) && x.item in Ids(f) && ItemOf(f, x.item).name == x.name
  }

  function Going(f: Forest<Item>, all: seq<Info>, items: seq<Info>): seq<int> {
    if items == [] then []
    else (if Goes(f, all, items[0]) then [items[0].item] else []) + Going(f, all, items[1..])
  }

  /** What is left of a forest: nothing new, and every item as it was. */
  ghost predicate LeftOf(f: Forest<Item>, g: Forest<Item>) {
    Wf(g) && forall z :: z in Ids(g) ==> z in Ids(f) && ItemOf(g, z) == ItemOf(f, z)
  }

  lemma {:induction false} LeftAfter(f: Forest<Item>, g: Forest<Item>, x: int)
    requires LeftOf(f, g)
    ensures LeftOf(f, Remove(g, x))
  {
    RemoveIds(g, x);
    forall z | z in Ids(Remove(g, x)) ensures z in Ids(f) && ItemOf(Remove(g, x), z) == ItemOf(f, z) {
      SubRemove(g, x, z);
    }
  }

  /**
    Whatever the document has become, redo deletes exactly the outermost listed items
    that are still there under the name they had, and leaves any other alone.
  */
  lemma {:induction false} RedoTakes(f: Forest<Item>, g: Forest<Item>, all: seq<Info>, items: seq<Info>)
    requires Wf(f) && LeftOf(f, g)
    ensures Redone(g, all, items) == Prune(g, Going(f, all, items))
    decreases |items|
  {
    if items != [] {
      var x, rest := items[0], Going(f, all, items[1..]);
      if x.item in Ids(g) {
        SubIs(g, x.item);
      } else {
        RemoveAbsent(g, x.item);
      }
      if Goes(f, all, x) {
        LeftAfter(f, g, x.item);
        RedoTakes(f, Remove(g, x.item), all, items[1..]);
        assert ([x.item] + rest)[1..] == rest;
      } else {
        RedoTakes(f, g, all, items[1..]);
        assert [] + rest == rest;
      }
    }
  }
}
