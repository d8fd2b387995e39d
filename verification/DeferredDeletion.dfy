/**
  What the alias, key and action units know of their nodes, and the order in
  which an uninstalled package's nodes are queued and freed
  (src/AliasUnit.cpp, src/KeyUnit.cpp, src/ActionUnit.cpp; src/Tree.h for what
  deleting a node does).
*/
module DeferredDeletion {
  import opened Common
  import opened Forests
  import opened Renaming

  datatype Node = Node(name: string, package: string, temporary: bool, active: bool, wanted: bool, folder: bool)

  /**
    The fields of a unit, and the nodes freed so far, in order.  A unit is `lazy`
    when leaving the outermost processing does not flush, as in the action unit.
  */
  datatype State = State(forest: Forest<Node>, index: set<int>, maxId: nat, cleanup: set<int>, queue: seq<int>,
                         depth: nat, lazy: bool, freed: seq<int>)

  /** Children before parents. */
  function PostOrder<T>(f: Forest<T>): seq<int> {
    match f
    case Nil => []
    case Cons(id, _, kids, rest) => PostOrder(kids) + [id] + PostOrder(rest)
  }

  /** What uninstalling queues: every tree whose root belongs to the package, in post-order. */
  function Queued(f: Forest<Node>, package: string): seq<int> {
    match f
    case Nil => []
    case Cons(id, item, kids, rest) =>
      (if item.package == package then PostOrder(kids) + [id] else []) + Queued(rest, package)
  }

  function Members(s: seq<int>): set<int> {
    set x | x in s
  }

  /** The nodes in the order they are freed, each at its first occurrence. */
  function Firsts(queue: seq<int>, seen: set<int>): seq<int> {
    if queue == [] then []
    else if queue[0] in seen then Firsts(queue[1..], seen)
    else [queue[0]] + Firsts(queue[1..], seen + {queue[0]})
  }

  // ---------------------------------------------------------------- post-order

  lemma {:induction false} PostOrderIds<T>(f: Forest<T>)
    ensures forall x :: x in PostOrder(f) <==> x in Ids(f)
    ensures Wf(f) ==> Distinct(PostOrder(f))
  {
    if f.Cons? {
      PostOrderIds(f.kids);
      PostOrderIds(f.rest);
      if Wf(f) {
        DistinctConcat(PostOrder(f.kids), [f.id]);
        DistinctConcat(PostOrder(f.kids) + [f.id], PostOrder(f.rest));
      }
    }
  }

  /** Every child of the node at `i` is listed before it. */
  ghost predicate Settled<T>(f: Forest<T>, q: seq<int>, i: nat) {
    i < |q| ==> q[i] in Ids(f) && forall y :: AtTop(Kids(f, q[i]), y) ==> y in q[..i]
  }

  /** A list of live nodes that holds every child of each, before it. */
  ghost predicate ChildrenFirst<T>(f: Forest<T>, q: seq<int>) {
    forall i: nat :: Settled(f, q, i)
  }

  lemma {:induction false} SettledConcat<T>(f: Forest<T>, a: seq<int>, b: seq<int>)
    requires ChildrenFirst(f, a) && ChildrenFirst(f, b)
    ensures ChildrenFirst(f, a + b)
  {
    forall i: nat ensures Settled(f, a + b, i) {
      var j: nat := if i < |a| then 0 else i - |a|;
      assert Settled(f, a, i) && Settled(f, b, j);
      if i < |a| {
        assert (a + b)[..i] == a[..i];
      } else if i < |a| + |b| {
        assert (a + b)[..i] == a + b[..j];
      }
    }
  }

  /** What holds of a list for the children, or for the later siblings, holds for the whole. */
  lemma {:induction false} SettledPart<T>(f: Forest<T>, q: seq<int>)
    requires Wf(f) && f.Cons? && (ChildrenFirst(f.kids, q) || ChildrenFirst(f.rest, q))
    ensures ChildrenFirst(f, q)
  {
    forall i: nat ensures Settled(f, q, i) {
      assert ChildrenFirst(f.kids, q) ==> Settled(f.kids, q, i);
      assert ChildrenFirst(f.rest, q) ==> Settled(f.rest, q, i);
    }
  }

  lemma {:induction false} SettledRoot<T>(f: Forest<T>)
    requires Wf(f) && f.Cons? && ChildrenFirst(f.kids, PostOrder(f.kids))
    ensures ChildrenFirst(f, PostOrder(f.kids) + [f.id])
  {
    var a, q := PostOrder(f.kids), PostOrder(f.kids) + [f.id];
    SettledPart(f, a);
    PostOrderIds(f.kids);
    forall i: nat ensures Settled(f, q, i) {
      assert Settled(f, a, i);
      if i < |a| {
        assert q[..i] == a[..i];
      } else if i == |a| {
        assert q[..i] == a && Kids(f, q[i]) == f.kids;
        forall y | AtTop(f.kids, y) ensures y in a { TopIds(f.kids, y); }
      }
    }
  }

  lemma {:induction false} PostOrderChildrenFirst<T>(f: Forest<T>)
    requires Wf(f)
    ensures ChildrenFirst(f, PostOrder(f))
  {
    if f.Cons? {
      PostOrderChildrenFirst(f.kids);
      PostOrderChildrenFirst(f.rest);
      SettledRoot(f);
      SettledPart(f, PostOrder(f.rest));
      SettledConcat(f, PostOrder(f.kids) + [f.id], PostOrder(f.rest));
    }
  }

  /** Uninstalling queues each node once, children before parents. */
  lemma {:induction false} QueuedFacts(f: Forest<Node>, package: string)
    requires Wf(f)
    ensures ChildrenFirst(f, Queued(f, package)) && Distinct(Queued(f, package))
    ensures forall x :: x in Queued(f, package) ==> x in Ids(f)
  {
    if f.Cons? {
      var a := if f.item.package == package then PostOrder(f.kids) + [f.id] else [];
      QueuedFacts(f.rest, package);
      SettledPart(f, Queued(f.rest, package));
      PostOrderIds(f.kids);
      PostOrderChildrenFirst(f.kids);
      SettledRoot(f);
      DistinctConcat(PostOrder(f.kids), [f.id]);
      assert ChildrenFirst(f, []) by { forall i: nat ensures Settled(f, [], i) {} }
      SettledConcat(f, a, Queued(f.rest, package));
      DistinctConcat(a, Queued(f.rest, package));
    }
  }

  // ---------------------------------------------------------------- deleting

  /** What `delete` does to a node: it and everything below it is unregistered, unlinked and freed. */
  function Delete(s: State, x: int): State {
    s.(forest := Remove(s.forest, x), index := s.index - Ids(Sub(s.forest, x)),
       freed := s.freed + PostOrder(Sub(s.forest, x)))
  }

  /** The flush of the queue, `seen` being what has been freed in the course of it. */
  function Flush(s: State, queue: seq<int>, seen: set<int>): State
    decreases |queue|
  {
    if queue == [] then s
    else if queue[0] in seen then Flush(s, queue[1..], seen)
    else Flush(Delete(s, queue[0]), queue[1..], seen + {queue[0]})
  }

  ghost predicate TempsChildless(f: Forest<Node>) {
    forall x :: x in Ids(f) && ItemOf(f, x).temporary ==> Kids(f, x).Nil?
  }

  /** Every id ever handed out is either live, and then indexed, or freed, and then freed once. */
  ghost predicate Accounted(s: State) {
    && Wf(s.forest) && s.index == Ids(s.forest)
    && Distinct(s.freed) && (forall x :: x in s.freed ==> x !in Ids(s.forest))
    && (forall x :: 0 < x <= s.maxId <==> x in Ids(s.forest) || x in s.freed)
  }

  lemma {:induction false} SingleOrder<T>(t: Forest<T>)
    requires Single(t) && t.kids.Nil?
    ensures PostOrder(t) == [t.id] && Ids(t) == {t.id}
  {
  }

  /** Deleting a live node keeps the account. */
  lemma {:induction false} DeleteAccounted(s: State, x: int)
    requires Accounted(s) && x in Ids(s.forest)
    ensures Accounted(Delete(s, x))
  {
    var t := Sub(s.forest, x);
    RemoveIds(s.forest, x);
    PostOrderIds(t);
    DistinctConcat(s.freed, PostOrder(t));
  }

  lemma {:induction false} DeleteTemps(f: Forest<Node>, x: int)
    requires Wf(f) && TempsChildless(f)
    ensures TempsChildless(Remove(f, x))
  {
    forall z | z in Ids(Remove(f, x)) && ItemOf(Remove(f, x), z).temporary ensures Kids(Remove(f, x), z).Nil? {
      SubRemove(f, x, z);
    }
  }

  lemma {:induction false} NoTops<T>(f: Forest<T>)
    ensures f.Nil? ==> forall y :: !AtTop(f, y)
    ensures f.Cons? ==> AtTop(f, f.id)
  {
  }

  /** Deleting a node without children frees just that node. */
  lemma {:induction false} DeleteLeaf(s: State, x: int)
    requires Wf(s.forest) && x in Ids(s.forest) && Kids(s.forest, x).Nil?
    ensures Delete(s, x).freed == s.freed + [x] && Ids(Delete(s, x).forest) == Ids(s.forest) - {x}
    ensures Delete(s, x).index == s.index - {x}
  {
    RemoveIds(s.forest, x);
    SingleOrder(Sub(s.forest, x));
  }

  /** A node still to be flushed is live, its children are listed before it, and what has been seen is gone. */
  ghost predicate Pending<T>(f: Forest<T>, queue: seq<int>, seen: set<int>, i: nat) {
    i < |queue| ==> (queue[i] in Ids(f) <==> queue[i] !in seen)
                    && forall y :: AtTop(Kids(f, queue[i]), y) ==> y in queue[..i] && y !in seen
  }

  ghost predicate AllPending<T>(f: Forest<T>, queue: seq<int>, seen: set<int>) {
    forall i: nat :: Pending(f, queue, seen, i)
  }

  lemma {:induction false} Member<T>(s: seq<T>, i: nat, y: T)
    requires 0 < i <= |s| && y in s[..i] && y != s[0]
    ensures y in s[1..][..i - 1]
  {
    var k :| 0 <= k < i && s[k] == y;
    assert s[1..][..i - 1][k - 1] == y;
  }

  lemma {:induction false} SkipSeen<T>(f: Forest<T>, queue: seq<int>, seen: set<int>)
    requires AllPending(f, queue, seen) && queue != [] && queue[0] in seen
    ensures AllPending(f, queue[1..], seen)
  {
    forall i: nat ensures Pending(f, queue[1..], seen, i) {
      var j := i + 1;
      assert Pending(f, queue, seen, j);
      if i < |queue[1..]| {
        forall y | AtTop(Kids(f, queue[j]), y) ensures y in queue[1..][..i] { Member(queue, j, y); }
      }
    }
  }

  /** The first pending node has no children left, and freeing it leaves the rest pending. */
  lemma {:induction false} FreeFirst<T>(f: Forest<T>, queue: seq<int>, seen: set<int>)
    requires Wf(f) && AllPending(f, queue, seen) && queue != [] && queue[0] !in seen
    ensures queue[0] in Ids(f) && Kids(f, queue[0]).Nil?
    ensures AllPending(Remove(f, queue[0]), queue[1..], seen + {queue[0]})
  {
    var x := queue[0];
    assert Pending(f, queue, seen, 0);
    NoTops(Kids(f, x));
    RemoveIds(f, x);
    SingleOrder(Sub(f, x));
    forall i: nat ensures Pending(Remove(f, x), queue[1..], seen + {x}, i) {
      var j := i + 1;
      assert Pending(f, queue, seen, j);
      if i < |queue[1..]| { KidsPending(f, queue, seen, j); }
    }
  }

  lemma {:induction false} KidsPending<T>(f: Forest<T>, queue: seq<int>, seen: set<int>, j: nat)
    requires Wf(f) && 0 < j < |queue| && Pending(f, queue, seen, j)
    ensures forall y :: AtTop(Kids(Remove(f, queue[0]), queue[j]), y) ==>
              y in queue[1..][..j - 1] && y !in seen + {queue[0]}
  {
    var x, z := queue[0], queue[j];
    forall y | AtTop(Kids(Remove(f, x), z), y) ensures y in queue[1..][..j - 1] && y !in seen + {x} {
      if z in Ids(Remove(f, x)) {
        SubRemove(f, x, z);
        KidsWf(f, z);
        TopRemoved(Kids(f, z), x, y);
        Member(queue, j, y);
      } else {
        SubAbsent(Remove(f, x), z);
      }
    }
  }

  lemma {:induction false} FirstsFacts(queue: seq<int>, seen: set<int>)
    ensures Distinct(Firsts(queue, seen))
    ensures forall x :: x in Firsts(queue, seen) <==> x in queue && x !in seen
  {
    if queue != [] {
      if queue[0] in seen {
        FirstsFacts(queue[1..], seen);
      } else {
        FirstsFacts(queue[1..], seen + {queue[0]});
        DistinctConcat([queue[0]], Firsts(queue[1..], seen + {queue[0]}));
      }
    }
  }

  /** The flush frees each pending node by itself, at its first occurrence, and nothing else. */
  lemma {:induction false} FlushFrees(s: State, queue: seq<int>, seen: set<int>)
    requires Accounted(s) && TempsChildless(s.forest) && AllPending(s.forest, queue, seen)
    ensures var r := Flush(s, queue, seen);
            && r == s.(forest := r.forest, index := r.index, freed := s.freed + Firsts(queue, seen))
            && Accounted(r) && TempsChildless(r.forest)
            && r.forest == Prune(s.forest, Firsts(queue, seen))
    decreases |queue|
  {
    if queue != [] {
      if queue[0] in seen {
        SkipSeen(s.forest, queue, seen);
        FlushFrees(s, queue[1..], seen);
      } else {
        var x, s1 := queue[0], Delete(s, queue[0]);
        FreeFirst(s.forest, queue, seen);
        DeleteLeaf(s, x);
        DeleteAccounted(s, x);
        DeleteTemps(s.forest, x);
        FlushFrees(s1, queue[1..], seen + {x});
        var rest := Firsts(queue[1..], seen + {x});
        assert s.freed + [x] + rest == s.freed + ([x] + rest);
        assert ([x] + rest)[1..] == rest;
      }
    }
  }

  // ---------------------------------------------------------------- what the scripts do

  /** Registers a new node at the end of the root list. */
  function AddRoot(s: State, node: Node): State {
    s.(forest := InsertHere(s.forest, Size(s.forest), Cons(s.maxId + 1, node, Nil, Nil)),
       index := s.index + {s.maxId + 1},
       maxId := s.maxId + 1)
  }

  /** Registers a new node as the last child of `parent`. */
  function AddChild(s: State, parent: int, node: Node): State {
    s.(forest := InsertUnder(s.forest, parent, Size(s.forest), Cons(s.maxId + 1, node, Nil, Nil)),
       index := s.index + {s.maxId + 1}, maxId := s.maxId + 1)
  }

  function Quiet(node: Node): Node {
    node.(active := false, wanted := false)
  }

  /** Switches every listed node off. */
  function QuietEach(f: Forest<Node>, xs: seq<int>): Forest<Node>
    decreases |xs|
  {
    if xs == [] then f
    else QuietEach(if xs[0] in Ids(f) then Update(f, xs[0], Quiet(ItemOf(f, xs[0]))) else f, xs[1..])
  }

  /** The first root of that name that is temporary and not already marked. */
  function Target(f: Forest<Node>, name: string, marked: set<int>): (r: int)
    ensures r != 0 ==> AtTop(f, r) && r !in marked
  {
    match f
    case Nil => 0
    case Cons(id, item, _, rest) =>
      if item.name == name && item.temporary && id !in marked then id else Target(rest, name, marked)
  }

  // ---------------------------------------------------------------- what holds between steps

  /** The nodes marked and queued for deletion are live, and the queue lists children before parents. */
  ghost predicate Sound(s: State) {
    && Accounted(s) && TempsChildless(s.forest)
    && ChildrenFirst(s.forest, s.queue)
    && (forall x :: x in s.cleanup ==> x in Ids(s.forest) && ItemOf(s.forest, x).temporary)
  }

  /** What holds between any two steps: outside processing the queue is empty, unless the unit is lazy. */
  ghost predicate Inv(s: State) {
    Sound(s) && (s.depth == 0 && !s.lazy ==> s.queue == [])
  }

  /** A script attaches no node under a temporary one, nor under one that is queued. */

  predicate Attachable(f: Forest<Node>, queue: seq<int>, parent: int) {
    parent in Ids(f) && !ItemOf(f, parent).temporary && parent !in queue
  }

  /** While processing is under way nothing is freed, and what is queued stays queued. */
  ghost predicate Held(s: State, t: State) {
    && t.freed == s.freed && t.depth == s.depth && t.lazy == s.lazy
    && Ids(s.forest) <= Ids(t.forest)
    && s.queue <= t.queue
  }

  /** The node is still there, with no child it did not have. */
  ghost predicate Undisturbed<T>(f: Forest<T>, g: Forest<T>, z: int) {
    z in Ids(g) && forall y :: AtTop(Kids(g, z), y) ==> AtTop(Kids(f, z), y)
  }

  lemma {:induction false} StillChildrenFirst<T>(f: Forest<T>, g: Forest<T>, q: seq<int>)
    requires ChildrenFirst(f, q) && forall z :: z in q ==> Undisturbed(f, g, z)
    ensures ChildrenFirst(g, q)
  {
    forall i: nat ensures Settled(g, q, i) {
      assert Settled(f, q, i);
      if i < |q| { assert Undisturbed(f, g, q[i]); }
    }
  }

  lemma {:induction false} QueueLive<T>(f: Forest<T>, q: seq<int>)
    requires ChildrenFirst(f, q)
    ensures forall z :: z in q ==> z in Ids(f)
  {
    forall z | z in q ensures z in Ids(f) {
      var i :| 0 <= i < |q| && q[i] == z;
      assert Settled(f, q, i);
    }
  }

  // ---------------------------------------------------------------- registering

  lemma {:induction false} NewNode(s: State, node: Node)
    requires Accounted(s)
    ensures var t := Cons(s.maxId + 1, node, Nil, Nil); Wf(t) && Ids(t) == {s.maxId + 1} && Ids(s.forest) !! Ids(t)
  {
  }

  lemma {:induction false} AddRootInv(s: State, node: Node)
    requires Inv(s)
    ensures Inv(AddRoot(s, node)) && Held(s, AddRoot(s, node)) && s.maxId + 1 in Ids(AddRoot(s, node).forest)
  {
    var f, t, pos := s.forest, Cons(s.maxId + 1, node, Nil, Nil), Size(s.forest);
    var g := InsertHere(f, pos, t);
    NewNode(s, node);
    InsertHereIds(f, pos, t);
    RemoveInsertHere(f, pos, t);
    forall z | z in Ids(f) ensures Kids(g, z) == Kids(f, z) && ItemOf(g, z) == ItemOf(f, z) { KidsHere(f, pos, t, z); }
    QueueLive(f, s.queue);
    StillChildrenFirst(f, g, s.queue);
  }

  lemma {:induction false} AddChildInv(s: State, parent: int, node: Node)
    requires Inv(s) && Attachable(s.forest, s.queue, parent)
    ensures Inv(AddChild(s, parent, node)) && Held(s, AddChild(s, parent, node))
    ensures s.maxId + 1 in Ids(AddChild(s, parent, node).forest)
  {
    var f, t, pos := s.forest, Cons(s.maxId + 1, node, Nil, Nil), Size(s.forest);
    var g := InsertUnder(f, parent, pos, t);
    NewNode(s, node);
    InsertUnderIds(f, parent, pos, t);
    RemoveInsertUnder(f, parent, pos, t);
    forall z | z in Ids(f)
      ensures z in Ids(g) && ItemOf(g, z) == ItemOf(f, z)
      ensures (z != parent ==> Undisturbed(f, g, z) && (Kids(f, z).Nil? ==> Kids(g, z).Nil?))
    {
      KidsUnder(f, parent, pos, t, z);
      if z != parent {
        forall y | AtTop(Kids(g, z), y) ensures AtTop(Kids(f, z), y) { TopUnder(Kids(f, z), parent, pos, t, y); }
      }
    }
    QueueLive(f, s.queue);
    StillChildrenFirst(f, g, s.queue);
  }

  /** Moving a node. */
  function MoveNode(s: State, child: int, parent: int, pos: nat): State {
    s.(forest := ReParent(s.forest, child, parent, pos))
  }

  /** Moving a node neither loses nor duplicates one, and the index needs no change. */
  lemma {:induction false} ReParentAccounted(s: State, child: int, parent: int, pos: nat)
    requires Accounted(s)
    ensures Accounted(MoveNode(s, child, parent, pos)) && Ids(MoveNode(s, child, parent, pos).forest) == Ids(s.forest)
    ensures Sub(MoveNode(s, child, parent, pos).forest, child) == Sub(s.forest, child)
    ensures Remove(MoveNode(s, child, parent, pos).forest, child) == Remove(s.forest, child)
  {
    var f := s.forest;
    RemoveIds(f, child);
    if child in Ids(f) {
      InsertIds(Remove(f, child), parent, pos, Sub(f, child));
      RemoveInsert(Remove(f, child), parent, pos, Sub(f, child));
    }
  }

  // ---------------------------------------------------------------- switching off

  lemma {:induction false} KidsUpdate(f: Forest<Node>, x: int, item: Node, z: int)
    requires Wf(f)
    ensures Kids(Update(f, x, item), z) == Update(Kids(f, z), x, item)
    ensures z in Ids(f) ==> z in Ids(Update(f, x, item))
                            && ItemOf(Update(f, x, item), z) == if z == x then item else ItemOf(f, z)
  {
    UpdateIds(f, x, item);
    if f.Cons? {
      UpdateIds(f.kids, x, item);
      UpdateIds(f.rest, x, item);
      KidsUpdate(f.kids, x, item, z);
      KidsUpdate(f.rest, x, item, z);
    }
  }

  lemma {:induction false} TopUpdate(f: Forest<Node>, x: int, item: Node, y: int)
    ensures AtTop(Update(f, x, item), y) <==> AtTop(f, y)
  {
    if f.Cons? { TopUpdate(f.rest, x, item, y); }
  }

  /** Nothing but the switches differs. */
  ghost predicate SameTree(f: Forest<Node>, g: Forest<Node>) {
    && Wf(g) && Ids(g) == Ids(f)
    && forall z :: z in Ids(f) ==> Undisturbed(f, g, z) && (Kids(f, z).Nil? ==> Kids(g, z).Nil?)
                                   && ItemOf(g, z).temporary == ItemOf(f, z).temporary
  }

  lemma {:induction false} QuietSame(f: Forest<Node>, x: int)
    requires Wf(f) && x in Ids(f)
    ensures SameTree(f, Update(f, x, Quiet(ItemOf(f, x))))
    ensures !ItemOf(Update(f, x, Quiet(ItemOf(f, x))), x).active
  {
    var item := Quiet(ItemOf(f, x));
    var g := Update(f, x, item);
    UpdateIds(f, x, item);
    forall z
      ensures Kids(g, z) == Update(Kids(f, z), x, item)
      ensures z in Ids(f) ==> ItemOf(g, z) == if z == x then item else ItemOf(f, z)
    {
      KidsUpdate(f, x, item, z);
    }
    forall z, y | AtTop(Kids(g, z), y) ensures AtTop(Kids(f, z), y) { TopUpdate(Kids(f, z), x, item, y); }
  }

  /** Switching nodes off changes nothing else, and none of them is left on. */
  lemma {:induction false} QuietEachFacts(f: Forest<Node>, xs: seq<int>)
    requires Wf(f) && forall x :: x in xs ==> x in Ids(f)
    ensures SameTree(f, QuietEach(f, xs))
    ensures forall x :: x in Ids(f) ==> ItemOf(QuietEach(f, xs), x)
                                        == if x in xs then Quiet(ItemOf(f, x)) else ItemOf(f, x)
    decreases |xs|
  {
    if xs != [] {
      var item := Quiet(ItemOf(f, xs[0]));
      var g := Update(f, xs[0], item);
      QuietSame(f, xs[0]);
      UpdateIds(f, xs[0], item);
      assert xs == [xs[0]] + xs[1..];
      QuietEachFacts(g, xs[1..]);
      forall x | x in Ids(f) ensures ItemOf(g, x) == if x == xs[0] then item else ItemOf(f, x) {
        KidsUpdate(f, xs[0], item, x);
      }
      SameTrans(f, g, QuietEach(g, xs[1..]));
    }
  }

  lemma {:induction false} SameTrans(f: Forest<Node>, g: Forest<Node>, h: Forest<Node>)
    requires SameTree(f, g) && SameTree(g, h)
    ensures SameTree(f, h)
  {
    forall z | z in Ids(f) ensures Undisturbed(f, h, z) { assert Undisturbed(f, g, z) && Undisturbed(g, h, z); }
  }

  lemma {:induction false} SameTreeInv(s: State, g: Forest<Node>)
    requires Inv(s) && SameTree(s.forest, g)
    ensures Inv(s.(forest := g))
  {
    QueueLive(s.forest, s.queue);
    StillChildrenFirst(s.forest, g, s.queue);
  }

  // ---------------------------------------------------------------- killing and uninstalling

  function Kill(s: State, x: int): State
    requires x in Ids(s.forest)
  {
    s.(forest := Update(s.forest, x, Quiet(ItemOf(s.forest, x))), cleanup := s.cleanup + {x})
  }

  lemma {:induction false} KillInv(s: State, x: int)
    requires Inv(s) && x in Ids(s.forest) && ItemOf(s.forest, x).temporary
    ensures Inv(Kill(s, x)) && Held(s, Kill(s, x))
  {
    var g := Update(s.forest, x, Quiet(ItemOf(s.forest, x)));
    QuietSame(s.forest, x);
    SameTreeInv(s, g);
  }

  /** Uninstalling while processing is under way: the nodes are queued, switched off, and no longer marked. */
  function Defer(s: State, package: string): State {
    var queue := s.queue + Queued(s.forest, package);
    s.(forest := QuietEach(s.forest, queue), queue := queue, cleanup := s.cleanup - Members(queue))
  }

  lemma {:induction false} EnqueueSound(s: State, package: string)
    requires Sound(s)
    ensures Sound(s.(queue := s.queue + Queued(s.forest, package)))
  {
    QueuedFacts(s.forest, package);
    SettledConcat(s.forest, s.queue, Queued(s.forest, package));
  }

  lemma {:induction false} DeferInv(s: State, package: string)
    requires Inv(s) && s.depth > 0
    ensures forall x :: x in s.queue + Queued(s.forest, package) ==> x in Ids(s.forest)
    ensures Inv(Defer(s, package)) && Held(s, Defer(s, package))
  {
    var queue := s.queue + Queued(s.forest, package);
    EnqueueSound(s, package);
    QueueLive(s.forest, queue);
    QuietEachFacts(s.forest, queue);
    var s1 := s.(queue := queue, cleanup := s.cleanup - Members(queue));
    SameTreeInv(s1, QuietEach(s.forest, queue));
  }

  // ---------------------------------------------------------------- flushing

  lemma {:induction false} PruneMember<T>(f: Forest<T>, xs: seq<int>, z: int)
    requires Wf(f) && z in Ids(Prune(f, xs))
    ensures z in Ids(f) && ItemOf(Prune(f, xs), z) == ItemOf(f, z)
    ensures forall y :: AtTop(Kids(Prune(f, xs), z), y) ==> AtTop(Kids(f, z), y) && y in Ids(Prune(f, xs))
    decreases |xs|
  {
    if xs == [] {
      forall y | AtTop(Kids(f, z), y) ensures y in Ids(f) {
        TopIds(Kids(f, z), y);
        KidsWf(f, z);
      }
    } else {
      RemoveIds(f, xs[0]);
      PruneMember(Remove(f, xs[0]), xs[1..], z);
      SubRemove(f, xs[0], z);
      forall y | AtTop(Kids(Remove(f, xs[0]), z), y) ensures AtTop(Kids(f, z), y) {
        KidsWf(f, z);
        TopRemoved(Kids(f, z), xs[0], y);
      }
    }
  }

  lemma {:induction false} FirstsDistinct(queue: seq<int>, seen: set<int>)
    requires Distinct(queue) && forall x :: x in queue ==> x !in seen
    ensures Firsts(queue, seen) == queue
  {
    if queue != [] {
      assert forall i :: 0 <= i < |queue[1..]| ==> queue[1..][i] == queue[i + 1] != queue[0];
      FirstsDistinct(queue[1..], seen + {queue[0]});
    }
  }

  lemma {:induction false} StartPending<T>(f: Forest<T>, queue: seq<int>)
    requires ChildrenFirst(f, queue)
    ensures AllPending(f, queue, {})
  {
    forall i: nat ensures Pending(f, queue, {}, i) { assert Settled(f, queue, i); }
  }

  lemma {:induction false} LeavesFirst(f: Forest<Node>, c: seq<int>)
    requires TempsChildless(f) && forall x :: x in c ==> x in Ids(f) && ItemOf(f, x).temporary
    ensures ChildrenFirst(f, c)
  {
    forall i: nat ensures Settled(f, c, i) {
      if i < |c| {
        assert c[i] in c;
        NoTops(Kids(f, c[i]));
      }
    }
  }

  lemma {:induction false} DropSeen<T>(f: Forest<T>, p: seq<int>, x: int, q: seq<int>)
    requires ChildrenFirst(f, p + [x] + q) && x in p
    ensures ChildrenFirst(f, p + q)
  {
    var long, short := p + [x] + q, p + q;
    forall i: nat ensures Settled(f, short, i) {
      var j := if i < |p| then i else i + 1;
      assert Settled(f, long, j);
      if i < |short| {
        assert long[j] == short[i];
        if i < |p| {
          assert long[..j] == short[..i];
        } else {
          assert long[..j] == p + [x] + q[..i - |p|] && short[..i] == p + q[..i - |p|];
        }
      }
    }
  }

  /** Keeping only first occurrences keeps children before parents. */
  lemma {:induction false} FirstsChildrenFirst<T>(f: Forest<T>, p: seq<int>, q: seq<int>, seen: set<int>)
    requires ChildrenFirst(f, p + q) && forall x :: x in seen <==> x in p
    ensures ChildrenFirst(f, p + Firsts(q, seen))
    decreases |q|
  {
    if q != [] {
      var x, rest := q[0], q[1..];
      if x in seen {
        assert p + q == p + [x] + rest;
        DropSeen(f, p, x, rest);
        FirstsChildrenFirst(f, p, rest, seen);
      } else {
        var longer, tail := p + [x], Firsts(rest, seen + {x});
        assert p + q == longer + rest;
        FirstsChildrenFirst(f, longer, rest, seen + {x});
        assert longer + tail == p + ([x] + tail);
      }
    } else {
      assert p + q == p + Firsts(q, seen);
    }
  }

  /** What a cleanup frees when it takes the marked nodes in the order `c`. */
  function Freed(s: State, c: seq<int>): seq<int> {
    c + Firsts(s.queue, Members(c))
  }

  /** The unit after a cleanup that takes the marked nodes in the order `c`. */
  function Cleaned(s: State, c: seq<int>): State {
    Flush(Flush(s, c, {}), s.queue, Members(c)).(cleanup := {}, queue := [])
  }

  lemma {:induction false} MarkedFirst(s: State, c: seq<int>)
    requires Sound(s) && Distinct(c) && forall x :: x in c <==> x in s.cleanup
    ensures var r := Flush(s, c, {});
            && r == s.(forest := Prune(s.forest, c), index := r.index, freed := s.freed + c)
            && Accounted(r) && TempsChildless(r.forest)
            && AllPending(r.forest, s.queue, Members(c))
  {
    LeavesFirst(s.forest, c);
    StartPending(s.forest, c);
    FlushFrees(s, c, {});
    FirstsDistinct(c, {});
    var r, seen := Flush(s, c, {}), Members(c);
    forall i: nat ensures Pending(r.forest, s.queue, seen, i) {
      assert Settled(s.forest, s.queue, i);
      if i < |s.queue| {
        if s.queue[i] in Ids(r.forest) {
          PruneMember(s.forest, c, s.queue[i]);
        } else {
          SubAbsent(r.forest, s.queue[i]);
        }
      }
    }
  }

  /** The order of freeing: each marked and each queued node once, children before parents. */
  lemma {:induction false} FreedOrder(s: State, c: seq<int>)
    requires Sound(s) && Distinct(c) && forall x :: x in c <==> x in s.cleanup
    ensures Distinct(Freed(s, c)) && ChildrenFirst(s.forest, Freed(s, c))
    ensures forall x :: x in Freed(s, c) <==> x in s.cleanup || x in s.queue
  {
    var seen := Members(c);
    FirstsFacts(s.queue, seen);
    DistinctConcat(c, Firsts(s.queue, seen));
    LeavesFirst(s.forest, c);
    SettledConcat(s.forest, c, s.queue);
    FirstsChildrenFirst(s.forest, c, s.queue, seen);
  }

  lemma {:induction false} SecondFlush(s: State, c: seq<int>, mid: State, seen: set<int>)
    requires Accounted(mid) && TempsChildless(mid.forest) && AllPending(mid.forest, s.queue, seen)
    requires mid == s.(forest := Prune(s.forest, c), index := mid.index, freed := s.freed + c)
    ensures var r := Flush(mid, s.queue, seen); var all := c + Firsts(s.queue, seen);
            && Accounted(r) && TempsChildless(r.forest)
            && r == s.(forest := Prune(s.forest, all), index := r.index, freed := s.freed + all)
  {
    var tail := Firsts(s.queue, seen);
    FlushFrees(mid, s.queue, seen);
    PruneConcat(s.forest, c, tail);
    assert s.freed + c + tail == s.freed + (c + tail);
  }

  /**
    A cleanup frees every marked and every queued node exactly once, children
    before parents, frees nothing else, and leaves nothing marked or queued.
  */
  lemma {:induction false} CleanedExactly(s: State, c: seq<int>)
    requires Sound(s) && Distinct(c) && forall x :: x in c <==> x in s.cleanup
    ensures var r := Cleaned(s, c);
            && Inv(r) && r.freed == s.freed + Freed(s, c) && r.forest == Prune(s.forest, Freed(s, c))
            && r == s.(forest := r.forest, index := r.index, freed := r.freed, cleanup := {}, queue := [])
    ensures Distinct(Freed(s, c)) && ChildrenFirst(s.forest, Freed(s, c))
    ensures forall x :: x in Freed(s, c) <==> x in s.cleanup || x in s.queue
  {
    MarkedFirst(s, c);
    SecondFlush(s, c, Flush(s, c, {}), Members(c));
    FreedOrder(s, c);
    var r := Cleaned(s, c);
    forall i: nat ensures Settled(r.forest, [], i) {}
  }

  /** Part way through the marked nodes, the others are still live. */
  lemma {:induction false} MarkedLive(s: State, c: seq<int>, x: int)
    requires Sound(s) && Distinct(c) && (forall y :: y in c ==> y in s.cleanup) && x in s.cleanup && x !in c
    ensures x in Ids(Flush(s, c, {}).forest)
  {
    LeavesFirst(s.forest, c);
    StartPending(s.forest, c);
    FlushFrees(s, c, {});
    FirstsDistinct(c, {});
    assert x !in s.freed + c;
  }

  lemma {:induction false} FlushLast(s: State, a: seq<int>, x: int, seen: set<int>)
    requires x !in a && x !in seen
    ensures Flush(s, a + [x], seen) == Delete(Flush(s, a, seen), x)
    decreases |a|
  {
    if a == [] {
      assert [] + [x] == [x] && [x][1..] == [];
    } else {
      assert (a + [x])[1..] == a[1..] + [x];
      if a[0] in seen { FlushLast(s, a[1..], x, seen); } else { FlushLast(Delete(s, a[0]), a[1..], x, seen + {a[0]}); }
    }
  }

  /** The flush looks at neither the marks nor the queue field. */
  lemma {:induction false} FlushFrame(s: State, list: seq<int>, seen: set<int>, cleanup: set<int>, queue: seq<int>)
    ensures Flush(s.(cleanup := cleanup, queue := queue), list, seen)
         == Flush(s, list, seen).(cleanup := cleanup, queue := queue)
    decreases |list|
  {
    if list != [] {
      if list[0] in seen {
        FlushFrame(s, list[1..], seen, cleanup, queue);
      } else {
        FlushFrame(Delete(s, list[0]), list[1..], seen + {list[0]}, cleanup, queue);
      }
    }
  }

  lemma {:induction false} FlushStep(s: State, list: seq<int>, seen: set<int>, cleanup: set<int>, s': State)
    requires list != [] && list[0] !in seen && s' == Delete(s, list[0]).(cleanup := cleanup)
    ensures Flush(s', list[1..], seen + {list[0]}) == Flush(s, list, seen).(cleanup := cleanup)
  {
    FlushFrame(Delete(s, list[0]), list[1..], seen + {list[0]}, cleanup, s.queue);
    FlushFrame(s, list, seen, s.cleanup, s.queue);
  }

  // ---------------------------------------------------------------- uninstalling at once

  /** The root list without the package's trees. */
  function Keeping(f: Forest<Node>, package: string): Forest<Node> {
    match f
    case Nil => Nil
    case Cons(id, item, kids, rest) =>
      if item.package == package then Keeping(rest, package) else Cons(id, item, kids, Keeping(rest, package))
  }

  lemma {:induction false} PruneKids<T>(f: Forest<T>, xs: seq<int>)
    requires Wf(f) && f.Cons? && f.id !in xs && forall x :: x in xs ==> x !in Ids(f.rest)
    ensures Prune(f, xs) == Cons(f.id, f.item, Prune(f.kids, xs), f.rest)
    decreases |xs|
  {
    if xs != [] {
      RemoveAbsent(f.rest, xs[0]);
      RemoveIds(f, xs[0]);
      PruneKids(Remove(f, xs[0]), xs[1..]);
    }
  }

  lemma {:induction false} PruneRest<T>(f: Forest<T>, xs: seq<int>)
    requires Wf(f) && f.Cons? && f.id !in xs && forall x :: x in xs ==> x !in Ids(f.kids)
    ensures Prune(f, xs) == Cons(f.id, f.item, f.kids, Prune(f.rest, xs))
    decreases |xs|
  {
    if xs != [] {
      RemoveAbsent(f.kids, xs[0]);
      RemoveIds(f, xs[0]);
      PruneRest(Remove(f, xs[0]), xs[1..]);
    }
  }

  lemma {:induction false} PruneTree<T>(f: Forest<T>)
    requires Wf(f) && f.Cons? && Prune(f.kids, PostOrder(f.kids)) == Nil
    ensures Prune(f, PostOrder(f.kids) + [f.id]) == f.rest
  {
    PostOrderIds(f.kids);
    PruneKids(f, PostOrder(f.kids));
    PruneConcat(f, PostOrder(f.kids), [f.id]);
    assert [f.id][1..] == [];
  }

  lemma {:induction false} PruneAll<T>(f: Forest<T>)
    requires Wf(f)
    ensures Prune(f, PostOrder(f)) == Nil
  {
    if f.Cons? {
      PruneAll(f.kids);
      PruneAll(f.rest);
      PruneTree(f);
      PruneConcat(f, PostOrder(f.kids) + [f.id], PostOrder(f.rest));
    }
  }

  /** Deleting what uninstalling queues leaves exactly the other roots, in order. */
  lemma {:induction false} PruneQueued(f: Forest<Node>, package: string)
    requires Wf(f)
    ensures Prune(f, Queued(f, package)) == Keeping(f, package)
  {
    if f.Cons? {
      PruneQueued(f.rest, package);
      QueuedFacts(f.rest, package);
      if f.item.package == package {
        PruneAll(f.kids);
        PruneTree(f);
        PruneConcat(f, PostOrder(f.kids) + [f.id], Queued(f.rest, package));
      } else {
        assert [] + Queued(f.rest, package) == Queued(f.rest, package);
        PruneRest(f, Queued(f.rest, package));
      }
    }
  }

  /** Uninstalling outside processing: the nodes are freed at once. */
  function UninstallNow(s: State, package: string): State {
    Flush(s, Queued(s.forest, package), {}).(cleanup := s.cleanup - Members(Queued(s.forest, package)))
  }

  lemma {:induction false} UninstallNowFacts(s: State, package: string)
    requires Inv(s) && s.queue == []
    ensures Inv(UninstallNow(s, package)) && UninstallNow(s, package).forest == Keeping(s.forest, package)
    ensures UninstallNow(s, package).freed == s.freed + Queued(s.forest, package)
  {
    var q := Queued(s.forest, package);
    QueuedFacts(s.forest, package);
    StartPending(s.forest, q);
    FlushFrees(s, q, {});
    FirstsDistinct(q, {});
    PruneQueued(s.forest, package);
    var r := UninstallNow(s, package);
    forall i: nat ensures Settled(r.forest, [], i) {}
    forall x | x in r.cleanup ensures x in Ids(r.forest) && ItemOf(r.forest, x).temporary {
      assert x !in s.freed + q;
      PruneMember(s.forest, q, x);
    }
  }

  // ---------------------------------------------------------------- which orders are safe at all

  /** A node below `z` has the same tree seen from there. */
  lemma {:induction false} SubKids<T>(f: Forest<T>, z: int, x: int)
    requires Wf(f) && x in Ids(Kids(f, z))
    ensures x in Ids(f) && Sub(Kids(f, z), x) == Sub(f, x)
  {
    if f.id != z {
      SubAbsent(f.rest, z);
      if z in Ids(f.kids) {
        SubKids(f.kids, z, x);
        KidsWf(f.kids, z);
      } else {
        SubKids(f.rest, z, x);
        KidsWf(f.rest, z);
      }
    }
  }

  /** Deleting in this order never meets a node that is already gone. */
  ghost predicate LiveInTurn<T>(f: Forest<T>, xs: seq<int>)
    decreases |xs|
  {
    xs == [] || (xs[0] in Ids(f) && LiveInTurn(Remove(f, xs[0]), xs[1..]))
  }

  /** No node is listed after one whose tree it lies in. */
  ghost predicate BelowBefore<T>(f: Forest<T>, xs: seq<int>) {
    forall i, j :: 0 <= i < j < |xs| ==> xs[j] !in Ids(Sub(f, xs[i]))
  }

  lemma {:induction false} SubAfter<T>(f: Forest<T>, x: int, z: int, y: int)
    requires Wf(f) && z in Ids(Remove(f, x)) && y in Ids(f) && y !in Ids(Sub(f, x))
    ensures y in Ids(Sub(Remove(f, x), z)) <==> y in Ids(Sub(f, z))
  {
    var g := Kids(f, z);
    SubRemove(f, x, z);
    KidsWf(f, z);
    RemoveIds(f, x);
    RemoveIds(f, z);
    RemoveIds(Remove(f, x), z);
    RemoveIds(g, x);
    if x in Ids(g) { SubKids(f, z, x); }
  }

  /** Freeing live nodes one by one, each with what is below it, is safe precisely when descendants come first. */
  lemma {:induction false} SafeOrder<T>(f: Forest<T>, xs: seq<int>)
    requires Wf(f) && Distinct(xs) && forall x :: x in xs ==> x in Ids(f)
    ensures LiveInTurn(f, xs) <==> BelowBefore(f, xs)
    decreases |xs|
  {
    if xs != [] {
      var x, ys, g := xs[0], xs[1..], Remove(f, xs[0]);
      RemoveIds(f, x);
      if forall y :: y in ys ==> y !in Ids(Sub(f, x)) {
        SafeOrder(g, ys);
        forall i, j | 0 <= i < j < |ys| ensures ys[j] in Ids(Sub(g, ys[i])) <==> xs[j + 1] in Ids(Sub(f, xs[i + 1])) {
          SubAfter(f, x, ys[i], ys[j]);
        }
        TailBelow(f, g, xs);
      } else {
        var y :| y in ys && y in Ids(Sub(f, x));
        GoneInTurn(g, ys, y);
      }
    }
  }

  lemma {:induction false} TailBelow<T>(f: Forest<T>, g: Forest<T>, xs: seq<int>)
    requires xs != [] && forall y :: y in xs[1..] ==> y !in Ids(Sub(f, xs[0]))
    requires forall i, j :: 0 <= i < j < |xs[1..]| ==>
              (xs[1..][j] in Ids(Sub(g, xs[1..][i])) <==> xs[j + 1] in Ids(Sub(f, xs[i + 1])))
    ensures BelowBefore(f, xs) <==> BelowBefore(g, xs[1..])
  {
    var ys := xs[1..];
    if BelowBefore(g, ys) {
      forall i, j | 0 <= i < j < |xs| ensures xs[j] !in Ids(Sub(f, xs[i])) {
        assert ys[j - 1] == xs[j];
        if i > 0 { assert ys[i - 1] == xs[i] && ys[j - 1] !in Ids(Sub(g, ys[i - 1])); }
      }
    }
    if BelowBefore(f, xs) {
      forall i, j | 0 <= i < j < |ys| ensures ys[j] !in Ids(Sub(g, ys[i])) {
        assert xs[j + 1] !in Ids(Sub(f, xs[i + 1]));
      }
    }
  }

  lemma {:induction false} GoneInTurn<T>(f: Forest<T>, xs: seq<int>, y: int)
    requires Wf(f) && y in xs && y !in Ids(f)
    ensures !LiveInTurn(f, xs)
    decreases |xs|
  {
    if xs[0] != y && xs[0] in Ids(f) {
      RemoveIds(f, xs[0]);
      GoneInTurn(Remove(f, xs[0]), xs[1..], y);
    }
  }

  /**
    Why scripts must not attach under a queued node: uninstalled, then given a
    child, then uninstalled again, a node is freed before the child that is
    queued after it.
  */
  lemma {:induction false} LateChild(node: Node)
    ensures var before := Cons(1, node, Nil, Nil); var after := Cons(1, node, Cons(2, node, Nil, Nil), Nil);
            var queue := Queued(before, node.package) + Queued(after, node.package);
            && Firsts(queue, {}) == [1, 2] && !LiveInTurn(after, Firsts(queue, {}))
  {
    var leaf: Forest<Node> := Cons(2, node, Nil, Nil);
    var before, after := Cons(1, node, Nil, Nil), Cons(1, node, leaf, Nil);
    var none: Forest<Node> := Nil;
    assert PostOrder(none) == [] && Queued(none, node.package) == [];
    assert PostOrder(leaf) == [] + [2] + [];
    assert Queued(before, node.package) == ([] + [1]) + [];
    assert Queued(after, node.package) == (PostOrder(leaf) + [1]) + [];
    var queue := Queued(before, node.package) + Queued(after, node.package);
    assert queue == [1, 2, 1];
    assert Firsts([1], {1, 2}) == [];
    assert queue[1..] == [2, 1] && [2, 1][1..] == [1];
    assert Firsts([2, 1], {1}) == [2] + Firsts([1], {1} + {2});
    var xs := Firsts(queue, {});
    assert xs == [1] + Firsts([2, 1], {} + {1}) && ({} + {1}) == {1};
    assert Firsts([2, 1], {1}) == [2];
    assert Firsts([1], {1} + {2}) == [];
    assert xs == [1, 2];
    assert Sub(after, 1) == after && 2 in Ids(leaf);
    SafeOrder(after, [1, 2]);
    assert [1, 2][1] in Ids(Sub(after, [1, 2][0]));
  }
}
