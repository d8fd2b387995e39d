/**
  What each thing that a script can do to a unit comes to, said of the nodes: which of
  them are queued, switched, marked or new, and that nothing else differs
  (src/AliasUnit.cpp, src/KeyUnit.cpp, src/ActionUnit.cpp).
*/
module UnitActs {
  import opened Common
  import opened Forests
  import opened DeferredDeletion
  import opened UnitRuns

  // ---------------------------------------------------------------- which nodes belong to a package

  /** The node is a root of the package, or below one. */
  ghost predicate InPackage(f: Forest<Node>, package: string, x: int) {
    exists r :: AtTop(f, r) && r in Ids(f) && ItemOf(f, r).package == package && x in Ids(Sub(f, r))
  }

  lemma {:induction false} InPackageParts(f: Forest<Node>, package: string, x: int)
    requires Wf(f) && f.Cons?
    ensures InPackage(f, package, x)
            <==> (f.item.package == package && (x == f.id || x in Ids(f.kids))) || InPackage(f.rest, package, x)
  {
    var here := Cons(f.id, f.item, f.kids, Nil);
    assert Ids(here) == {f.id} + Ids(f.kids);
    forall r | AtTop(f.rest, r)
      ensures r in Ids(f.rest) && r != f.id && ItemOf(f, r) == ItemOf(f.rest, r) && Sub(f, r) == Sub(f.rest, r)
    {
      TopIds(f.rest, r);
    }
    if f.item.package == package && (x == f.id || x in Ids(f.kids)) {
      assert AtTop(f, f.id) && Sub(f, f.id) == here;
    }
    if InPackage(f.rest, package, x) {
      var r :| AtTop(f.rest, r) && r in Ids(f.rest) && ItemOf(f.rest, r).package == package && x in Ids(Sub(f.rest, r));
      assert AtTop(f, r);
    }
    if InPackage(f, package, x) {
      var r :| AtTop(f, r) && r in Ids(f) && ItemOf(f, r).package == package && x in Ids(Sub(f, r));
      if r != f.id { assert AtTop(f.rest, r); }
    }
  }

  /** Uninstalling queues exactly the package's nodes. */
  lemma {:induction false} QueuedExactly(f: Forest<Node>, package: string)
    requires Wf(f)
    ensures forall x :: x in Queued(f, package) <==> InPackage(f, package, x)
  {
    if f.Cons? {
      QueuedExactly(f.rest, package);
      PostOrderIds(f.kids);
      forall x ensures x in Queued(f, package) <==> InPackage(f, package, x) { InPackageParts(f, package, x); }
    }
  }

  // ---------------------------------------------------------------- the same nodes, in the same places

  /** The same nodes hang in the same places; only what the nodes hold may differ. */
  ghost predicate SamePlaces(f: Forest<Node>, g: Forest<Node>) {
    match (f, g)
    case (Nil, Nil) => true
    case (Cons(id, _, kids, rest), Cons(id', _, kids', rest')) =>
      id == id' && SamePlaces(kids, kids') && SamePlaces(rest, rest')
    case _ => false
  }

  lemma {:induction false} SameSelf(f: Forest<Node>)
    ensures SamePlaces(f, f)
  {
    if f.Cons? {
      SameSelf(f.kids);
      SameSelf(f.rest);
    }
  }

  lemma {:induction false} UpdatePlaces(f: Forest<Node>, x: int, item: Node)
    ensures SamePlaces(f, Update(f, x, item))
  {
    if f.Cons? {
      UpdatePlaces(f.kids, x, item);
      UpdatePlaces(f.rest, x, item);
    }
  }

  lemma {:induction false} SamePlacesTrans(f: Forest<Node>, g: Forest<Node>, h: Forest<Node>)
    requires SamePlaces(f, g) && SamePlaces(g, h)
    ensures SamePlaces(f, h)
  {
    if f.Cons? {
      SamePlacesTrans(f.kids, g.kids, h.kids);
      SamePlacesTrans(f.rest, g.rest, h.rest);
    }
  }

  lemma {:induction false} QuietPlaces(f: Forest<Node>, xs: seq<int>)
    ensures SamePlaces(f, QuietEach(f, xs))
    decreases |xs|
  {
    if xs == [] {
      SameSelf(f);
    } else {
      var g := if xs[0] in Ids(f) then Update(f, xs[0], Quiet(ItemOf(f, xs[0]))) else f;
      if xs[0] in Ids(f) { UpdatePlaces(f, xs[0], Quiet(ItemOf(f, xs[0]))); } else { SameSelf(f); }
      QuietPlaces(g, xs[1..]);
      SamePlacesTrans(f, g, QuietEach(g, xs[1..]));
    }
  }

  /** These nodes are switched off, and neither another node nor any place differs. */
  ghost predicate SwitchedOff(f: Forest<Node>, g: Forest<Node>, off: seq<int>) {
    && SamePlaces(f, g) && Ids(g) == Ids(f)
    && forall x :: x in Ids(f) ==>
          ItemOf(g, x) == if x in off then ItemOf(f, x).(active := false, wanted := false) else ItemOf(f, x)
  }

  // ---------------------------------------------------------------- uninstalling, killing, switching

  /** The package's nodes are queued after what was, and switched off with it, and nothing is freed. */
  ghost predicate DefersPackage(s: State, package: string, t: State, list: seq<int>) {
    && t.queue == s.queue + list && Distinct(list)
    && (forall x :: x in list <==> InPackage(s.forest, package, x))
    && SwitchedOff(s.forest, t.forest, t.queue)
    && (forall x :: x in t.cleanup <==> x in s.cleanup && x !in t.queue)
    && t == s.(forest := t.forest, queue := t.queue, cleanup := t.cleanup)
  }

  /**
    Uninstalling while processing is under way queues exactly the package's nodes after
    what is queued already, switches off everything that is queued, takes it from the
    marked nodes, and frees nothing.
  */
  lemma {:induction false} UninstallDeferred(s: State, package: string, t: State) returns (list: seq<int>)
    requires Inv(s) && s.depth > 0 && Uninstalled(s, package, t)
    ensures DefersPackage(s, package, t, list)
  {
    list := Queued(s.forest, package);
    QueuedExactly(s.forest, package);
    QueuedFacts(s.forest, package);
    DeferInv(s, package);
    QuietEachFacts(s.forest, t.queue);
    QuietPlaces(s.forest, t.queue);
  }

  /** The package's nodes are freed, and with them, in a lazy unit, all that was marked or queued; nothing else is. */
  ghost predicate FreesPackage(s: State, package: string, t: State, list: seq<int>) {
    && t.freed == s.freed + list && Distinct(list) && ChildrenFirst(s.forest, list)
    && (forall x :: x in list <==> InPackage(s.forest, package, x) || (s.lazy && (x in s.cleanup || x in s.queue)))
    && t.forest == Prune(s.forest, list) && t.queue == []
    && (forall x :: x in t.cleanup <==> x in s.cleanup && x !in list)
    && t.depth == s.depth && t.lazy == s.lazy && t.maxId == s.maxId
  }

  /**
    Uninstalling outside processing frees exactly the package's nodes - in a lazy unit
    together with whatever was marked or queued - each once and children first, and leaves
    nothing of them behind.
  */
  lemma {:induction false} UninstallAtOnce(s: State, package: string, t: State) returns (list: seq<int>)
    requires Inv(s) && s.depth == 0 && Uninstalled(s, package, t)
    ensures FreesPackage(s, package, t, list)
  {
    var q := Queued(s.forest, package);
    QueuedExactly(s.forest, package);
    QueuedFacts(s.forest, package);
    if s.lazy {
      var s1 := s.(queue := s.queue + q);
      EnqueueSound(s, package);
      var c :| CleanedIn(s1, c, t);
      CleanedExactly(s1, c);
      list := Freed(s1, c);
    } else {
      list := q;
      UninstallNowFacts(s, package);
      PruneQueued(s.forest, package);
      StartPending(s.forest, q);
      FlushFrees(s, q, {});
    }
  }

  /** The root is a temporary node of that name that is not marked yet. */
  predicate Killable(s: State, name: string, x: int) {
    AtTop(s.forest, x) && x in Ids(s.forest) && x !in s.cleanup
    && ItemOf(s.forest, x).temporary && ItemOf(s.forest, x).name == name
  }

  lemma {:induction false} TargetExactly(f: Forest<Node>, name: string, marked: set<int>, x: int)
    requires Wf(f) && 0 !in Ids(f)
    ensures var r := Target(f, name, marked);
            && (r != 0 ==> AtTop(f, r) && r in Ids(f) && r !in marked
                           && ItemOf(f, r).temporary && ItemOf(f, r).name == name)
            && (AtTop(f, x) && x in Ids(f) && ItemOf(f, x).temporary && ItemOf(f, x).name == name && x !in marked ==>
                  r != 0 && PositionOf(f, r) <= PositionOf(f, x))
  {
    if f.Cons? {
      TargetExactly(f.rest, name, marked, x);
      var r := Target(f.rest, name, marked);
      TopIds(f.rest, x);
      TopIds(f.rest, r);
    }
  }

  /** The first root that can be killed is marked and switched off; when there is none, nothing happens. */
  ghost predicate KillsFirst(s: State, name: string, t: State, r: int) {
    && (r != 0 <==> exists x :: Killable(s, name, x))
    && (r != 0 ==> Killable(s, name, r))
    && (forall x :: Killable(s, name, x) ==> PositionOf(s.forest, r) <= PositionOf(s.forest, x))
    && SwitchedOff(s.forest, t.forest, if r != 0 then [r] else [])
    && t == s.(forest := t.forest, cleanup := if r != 0 then s.cleanup + {r} else s.cleanup)
  }

  lemma {:induction false} KillDone(s: State, name: string) returns (r: int)
    requires Inv(s)
    ensures KillsFirst(s, name, Killed(s, name), r)
  {
    var f := s.forest;
    assert 0 !in Ids(f);
    r := Target(f, name, s.cleanup);
    forall x ensures Killable(s, name, x) ==> r != 0 && PositionOf(f, r) <= PositionOf(f, x) {
      TargetExactly(f, name, s.cleanup, x);
    }
    TargetExactly(f, name, s.cleanup, r);
    if r != 0 {
      assert Killable(s, name, r);
      OneOff(f, r);
    } else {
      SameSelf(f);
    }
  }

  lemma {:induction false} OneOff(f: Forest<Node>, r: int)
    requires Wf(f) && r in Ids(f)
    ensures SwitchedOff(f, Update(f, r, Quiet(ItemOf(f, r))), [r])
  {
    var item := Quiet(ItemOf(f, r));
    UpdateIds(f, r, item);
    UpdatePlaces(f, r, item);
    forall x | x in Ids(f) ensures ItemOf(Update(f, r, item), x) == if x == r then item else ItemOf(f, x) {
      KidsUpdate(f, r, item, x);
    }
  }

  /** The switches of one node are set, if it is still there, and nothing else differs. */
  ghost predicate SetsSwitches(s: State, item: int, active: bool, wanted: bool, t: State) {
    && t == s.(forest := t.forest) && SamePlaces(s.forest, t.forest) && Ids(t.forest) == Ids(s.forest)
    && forall x :: x in Ids(s.forest) ==>
         ItemOf(t.forest, x)
           == if x == item then ItemOf(s.forest, x).(active := active, wanted := wanted) else ItemOf(s.forest, x)
  }

  lemma {:induction false} SwitchDone(s: State, item: int, active: bool, wanted: bool)
    requires Inv(s)
    ensures SetsSwitches(s, item, active, wanted, Switched(s, item, active, wanted))
  {
    var f := s.forest;
    if item in Ids(f) {
      var data := ItemOf(f, item).(active := active, wanted := wanted);
      UpdateIds(f, item, data);
      UpdatePlaces(f, item, data);
      forall x | x in Ids(f) ensures ItemOf(Update(f, item, data), x) == if x == item then data else ItemOf(f, x) {
        KidsUpdate(f, item, data, x);
      }
    } else {
      SameSelf(f);
    }
  }

  // ---------------------------------------------------------------- registering

  /** The new node under the next id, without children, last where it hangs; and nothing else differs. */
  ghost predicate NewLast(s: State, t: State, parent: int, node: Node) {
    var x, g := s.maxId + 1, t.forest;
    && x !in Ids(s.forest) && x in Ids(g) && ItemOf(g, x) == node && Kids(g, x) == Nil
    && ParentOf(g, x, 0) == parent
    && PositionOf(g, x) == |if parent == 0 then Tops(s.forest) else Tops(Kids(s.forest, parent))|
    && Remove(g, x) == s.forest
    && t == s.(forest := g, index := s.index + {x}, maxId := x)
  }

  lemma {:induction false} TopsSize<T>(f: Forest<T>)
    ensures |Tops(f)| <= Size(f)
  {
    if f.Cons? { TopsSize(f.rest); }
  }

  lemma {:induction false} KidsSize<T>(f: Forest<T>, x: int)
    ensures Size(Kids(f, x)) <= Size(f)
  {
    if f.Cons? {
      KidsSize(f.kids, x);
      KidsSize(f.rest, x);
    }
  }

  lemma {:induction false} LeafItem<T>(f: Forest<T>, x: int, item: T)
    requires x in Ids(f) && Sub(f, x) == Cons(x, item, Nil, Nil)
    ensures ItemOf(f, x) == item && Kids(f, x) == Nil
  {
    if f.id != x {
      if x in Ids(f.kids) { LeafItem(f.kids, x, item); } else { LeafItem(f.rest, x, item); }
    }
  }

  /** A new node is registered last among the roots, or last under a node that may have one; else nothing happens. */
  lemma {:induction false} RegisterDone(s: State, parent: int, node: Node)
    requires Inv(s)
    ensures var t := Registered(s, parent, node);
            if parent == 0 || Attachable(s.forest, s.queue, parent) then NewLast(s, t, parent, node) else t == s
  {
    var f, x, pos := s.forest, s.maxId + 1, Size(s.forest);
    var leaf := Cons(x, node, Nil, Nil);
    NewNode(s, node);
    assert 0 !in Ids(f);
    TopsSize(f);
    if parent == 0 {
      RemoveInsertHere(f, pos, leaf);
      ParentInsertHere(f, pos, leaf, 0);
      PlaceHere(f, pos, leaf);
      InsertHereIds(f, pos, leaf);
      LeafItem(InsertHere(f, pos, leaf), x, node);
    } else if Attachable(f, s.queue, parent) {
      KidsSize(f, parent);
      TopsSize(Kids(f, parent));
      RemoveInsertUnder(f, parent, pos, leaf);
      ParentInsertUnder(f, parent, pos, leaf, 0);
      PlaceUnder(f, parent, pos, leaf);
      InsertUnderIds(f, parent, pos, leaf);
      LeafItem(InsertUnder(f, parent, pos, leaf), x, node);
    }
  }
}
