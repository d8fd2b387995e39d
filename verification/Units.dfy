/**
  The alias, key and action units as objects (src/AliasUnit.cpp, src/KeyUnit.cpp,
  src/ActionUnit.cpp, src/TAlias.cpp and src/TKey.cpp match), each method proved to
  do what the relations of UnitRuns say.  A live node is one whose id is in the
  forest; every place that follows a link to a node requires it.
*/
module Units {
  import opened Forests
  import opened Renaming
  import opened DeferredDeletion
  import opened Common
  import opened UnitRuns

  /** Where the inline loop stands after `i` nodes. */
  ghost predicate InlineSoFar(start: State, now: State, i: nat) {
    && i <= |start.queue| && Distinct(start.queue) && Wf(now.forest) && now.queue == start.queue
    && now.cleanup == start.cleanup - Members(start.queue[..i])
    && AllPending(now.forest, start.queue[i..], Members(start.queue[..i]))
    && Flush(now, start.queue[i..], Members(start.queue[..i])) == Flush(start, start.queue, {}).(cleanup := now.cleanup)
  }

  lemma {:induction false} InlineStart(start: State)
    requires Wf(start.forest) && Distinct(start.queue) && AllPending(start.forest, start.queue, {})
    ensures InlineSoFar(start, start, 0)
  {
    assert start.queue[0..] == start.queue && Members(start.queue[..0]) == {};
    FlushFrame(start, start.queue, {}, start.cleanup, start.queue);
  }

  lemma {:induction false} InlineOn(start: State, now: State, i: nat, next: nat)
    requires InlineSoFar(start, now, i) && i < |start.queue| && next == i + 1
    ensures var x := start.queue[i];
            x in Ids(now.forest) && InlineSoFar(start, Delete(now, x).(cleanup := now.cleanup - {x}), next)
  {
    var q, x, seen := start.queue, start.queue[i], Members(start.queue[..i]);
    assert q[i..][0] == x && q[i..][1..] == q[next..] && q[..next] == q[..i] + [x];
    assert Members(q[..next]) == seen + {x} && x !in seen;
    FreeFirst(now.forest, q[i..], seen);
    RemoveIds(now.forest, x);
    FlushStep(now, q[i..], seen, now.cleanup - {x}, Delete(now, x).(cleanup := now.cleanup - {x}));
  }

  /**
    A unit; the action unit is the lazy one: it runs one button's script at a time and
    leaves the flush to a later cleanup.
  */
  class Unit {
    var forest: Forest<Node>
    var index: set<int>
    var maxId: nat
    var cleanup: set<int>
    var queue: seq<int>
    var depth: nat
    ghost var freed: seq<int>
    const copies: bool
    const matchAll: bool
    const lazy: bool

    function How(): Walk {
      Walk(copies, matchAll)
    }

    ghost function View(): State
      reads this
    {
      State(forest, index, maxId, cleanup, queue, depth, lazy, freed)
    }

    constructor (copies: bool, matchAll: bool, lazy: bool)
      ensures this.copies == copies && this.matchAll == matchAll
      ensures Inv(View()) && View() == State(Nil, {}, 0, {}, [], 0, lazy, [])
    {
      forest, index, maxId, cleanup, queue, depth, freed := Nil, {}, 0, {}, [], 0, [];
      this.copies, this.matchAll, this.lazy := copies, matchAll, lazy;
      new;
      forall i: nat ensures Settled(forest, [], i) {}
    }

    /** `delete` on a node: it must not have been freed before. */
    method DeleteNode(x: int)
      requires x in Ids(forest)
      modifies this`forest, this`index, this`freed
      ensures View() == Delete(old(View()), x)
    {
      index := index - Ids(Sub(forest, x));
      freed := freed + PostOrder(Sub(forest, x));
      forest := Remove(forest, x);
    }

    method RegisterNode(parent: int, node: Node)
      requires Inv(View())
      modifies this`forest, this`index, this`maxId
      ensures View() == Registered(old(View()), parent, node)
      ensures Inv(View()) && Held(old(View()), View())
    {
      RegisteredKeeps(View(), parent, node);
      if parent == 0 || Attachable(forest, queue, parent) {
        maxId := maxId + 1;
        var t := Cons(maxId, node, Nil, Nil);
        forest := if parent == 0 then InsertHere(forest, Size(forest), t)
            else InsertUnder(forest, parent, Size(forest), t);
        index := index + {maxId};
      }
    }

    method KillNode(name: string) returns (killed: bool)
      requires Inv(View())
      modifies this`forest, this`cleanup
      ensures View() == Killed(old(View()), name) && killed == (Target(old(forest), name, old(cleanup)) != 0)
      ensures Inv(View()) && Held(old(View()), View())
    {
      KilledKeeps(View(), name);
      var roots := forest;
      killed := false;
      while roots.Cons?
        invariant Target(forest, name, cleanup) == Target(roots, name, cleanup)
        invariant View() == old(View()) && !killed
        invariant forall x :: x in Ids(roots) ==> x in Ids(forest)
        decreases Size(roots)
      {
        if roots.item.name == name && roots.item.temporary && roots.id !in cleanup {
          assert roots.id in Ids(roots);
          forest := Update(forest, roots.id, Quiet(ItemOf(forest, roots.id)));
          cleanup := cleanup + {roots.id};
          killed := true;
          return;
        }
        roots := roots.rest;
      }
    }

    /** A node's children, each after its own children. */
    static method Collect(kids: Forest<Node>, list: seq<int>) returns (r: seq<int>)
      ensures r == list + PostOrder(kids)
      decreases Size(kids)
    {
      r := list;
      var todo := kids;
      while todo.Cons?
        invariant r + PostOrder(todo) == list + PostOrder(kids)
        invariant Size(todo) <= Size(kids)
        decreases Size(todo)
      {
        r := Collect(todo.kids, r);
        r := r + [todo.id];
        todo := todo.rest;
      }
    }

    /** The package's trees, in post-order, after what is queued already. */
    method Enqueue(package: string)
      modifies this`queue
      ensures queue == old(queue) + Queued(forest, package)
    {
      var roots := forest;
      while roots.Cons?
        invariant queue + Queued(roots, package) == old(queue) + Queued(forest, package)
        decreases Size(roots)
      {
        if roots.item.package == package {
          queue := Collect(roots.kids, queue);
          queue := queue + [roots.id];
        }
        roots := roots.rest;
      }
    }

    method SwitchOffQueued()
      requires forall x :: x in queue ==> x in Ids(forest)
      modifies this`forest, this`cleanup
      ensures forest == QuietEach(old(forest), queue) && cleanup == old(cleanup) - Members(queue)
    {
      var i := 0;
      assert queue[0..] == queue;
      while i < |queue|
        invariant 0 <= i <= |queue| && forall x :: x in queue ==> x in Ids(forest)
        invariant QuietEach(forest, queue[i..]) == QuietEach(old(forest), queue)
        invariant cleanup == old(cleanup) - Members(queue[..i])
      {
        var x := queue[i];
        UpdateIds(forest, x, Quiet(ItemOf(forest, x)));
        assert queue[i..][1..] == queue[i + 1..] && queue[..i + 1] == queue[..i] + [x];
        forest := Update(forest, x, Quiet(ItemOf(forest, x)));
        cleanup := cleanup - {x};
        i := i + 1;
      }
      assert queue[..|queue|] == queue;
    }

    /** The loop that ends an uninstallation outside processing; it keeps no record of what it has freed. */
    method FreeInline()
      requires Wf(forest) && Distinct(queue) && AllPending(forest, queue, {})
      modifies this`forest, this`index, this`freed, this`cleanup, this`queue
      ensures View() == Flush(old(View()), old(queue), {}).(cleanup := old(cleanup) - Members(old(queue)), queue := [])
    {
      var i := 0;
      ghost var start, now := View(), View();
      InlineStart(start);
      while i < |queue|
        invariant 0 <= i <= |queue| && now == View() && queue == start.queue
        invariant InlineSoFar(start, now, i)
        decreases |queue| - i
      {
        var x := queue[i];
        InlineOn(start, now, i, i + 1);
        cleanup := cleanup - {x};
        DeleteNode(x);
        now := View();
        i := i + 1;
      }
      assert queue[..|queue|] == queue && queue[|queue|..] == [];
      queue := [];
    }

    /** Frees the marked nodes, in whatever order the set gives them. */
    method FreeMarked() returns (ghost order: seq<int>, deleted: set<int>)
      requires Sound(View())
      modifies this`forest, this`index, this`freed, this`cleanup
      ensures Distinct(order) && (forall x :: x in order <==> x in old(cleanup)) && deleted == Members(order)
      ensures View() == Flush(old(View()), order, {}).(cleanup := {})
    {
      ghost var s := View();
      order, deleted := [], {};
      while cleanup != {}
        invariant cleanup == s.cleanup - deleted && deleted == Members(order) && deleted <= s.cleanup && Distinct(order)
        invariant View() == Flush(s, order, {}).(cleanup := cleanup)
        decreases cleanup
      {
        assert exists x :: x in cleanup by { Nonempty(cleanup); }
        var x :| x in cleanup;
        MarkedLive(s, order, x);
        FlushLast(s, order, x, {});
        DistinctConcat(order, [x]);
        cleanup := cleanup - {x};
        deleted := deleted + {x};
        order := order + [x];
        DeleteNode(x);
      }
    }

    /** Frees the queued nodes that have not been freed in this cleanup yet. */
    method FreeQueued(seen: set<int>)
      requires Wf(forest) && AllPending(forest, queue, seen)
      modifies this`forest, this`index, this`freed, this`queue
      ensures View() == Flush(old(View()), old(queue), seen).(queue := [])
    {
      var i, deleted := 0, seen;
      assert queue[0..] == queue;
      while i < |queue|
        invariant 0 <= i <= |queue| && queue == old(queue) && Wf(forest)
        invariant AllPending(forest, queue[i..], deleted)
        invariant Flush(View(), queue[i..], deleted) == Flush(old(View()), queue, seen)
      {
        var x := queue[i];
        assert queue[i..][0] == x && queue[i..][1..] == queue[i + 1..];
        if x !in deleted {
          FreeFirst(forest, queue[i..], deleted);
          RemoveIds(forest, x);
          deleted := deleted + {x};
          DeleteNode(x);
        } else {
          SkipSeen(forest, queue[i..], deleted);
        }
        i := i + 1;
      }
      assert queue[|queue|..] == [];
      queue := [];
    }

    /** The flush at the end of the outermost processing, or from outside. */
    method DoCleanup()
      requires Sound(View())
      modifies this
      ensures depth == old(depth) && if depth > 0 then View() == old(View()) else Flushed(old(View()), View())
      ensures depth == 0 ==> Inv(View()) && queue == [] && cleanup == {}
    {
      if depth > 0 { return; }
      ghost var s := View();
      var deleted;
      ghost var order;
      order, deleted := FreeMarked();
      MarkedFirst(s, order);
      FlushFrame(Flush(s, order, {}), s.queue, deleted, {}, s.queue);
      FreeQueued(deleted);
      assert CleanedIn(s, order, View());
      FlushedKeeps(s, View());
    }

    /**
      Inside processing the package's nodes are only queued and switched off;
      outside, they are freed at once, in a lazy unit together with what was queued.
    */
    method UninstallPackage(package: string)
      requires Inv(View())
      modifies this
      ensures Uninstalled(old(View()), package, View()) && Kept(old(View()), View())
    {
      ghost var s := View();
      QueuedFacts(forest, package);
      Enqueue(package);
      if depth > 0 {
        DeferInv(s, package);
        SwitchOffQueued();
      } else if lazy {
        EnqueueSound(s, package);
        DoCleanup();
      } else {
        assert queue == Queued(forest, package);
        StartPending(forest, queue);
        FlushFrame(s, queue, {}, s.cleanup, queue);
        FreeInline();
        UninstallNowFacts(s, package);
      }
    }

    // -------------------------------------------------------------- processing

    /** Runs one script. */
    method Run(script: Acts)
      requires Inv(View())
      modifies this
      ensures Ran(How(), old(View()), script, View()) && Kept(old(View()), View())
      decreases Cost(script), 4, 0, 0
    {
      var todo := script;
      ghost var start := View();
      while todo.Then?
        invariant Kept(start, View()) && Inv(View()) && Cost(todo) <= Cost(script)
        invariant forall t :: Ran(How(), View(), todo, t) ==> Ran(How(), start, script, t)
        decreases Cost(todo)
      {
        ghost var before := View();
        Perform(todo.first);
        ActKeeps(How(), before, todo.first, View());
        KeptTrans(start, before, View());
        forall t | Ran(How(), View(), todo.rest, t) ensures Ran(How(), before, todo, t) {}
        todo := todo.rest;
      }
      assert Ran(How(), View(), Done, View());
    }

    /** One thing that a script does. */
    method Perform(act: Act)
      requires Inv(View())
      modifies this
      ensures Acted(How(), old(View()), act, View()) && Kept(old(View()), View())
      decreases Weight(act), 3, 0, 0
    {
      match act {
        case Uninstall(package) => UninstallPackage(package);
        case KillNamed(name) => var _ := KillNode(name);
        case Register(parent, node) => RegisterNode(parent, node);
        case Switch(item, active, wanted) => SwitchNode(item, active, wanted);
        case Process(fires) => if !lazy { var _ := ProcessDataStream(fires); }
      }
    }

    method SwitchNode(item: int, active: bool, wanted: bool)
      requires Inv(View())
      modifies this`forest
      ensures View() == Switched(old(View()), item, active, wanted)
      ensures Inv(View()) && Held(old(View()), View())
    {
      SwitchKeeps(View(), item, active, wanted);
      if item in Ids(forest) {
        forest := Update(forest, item, ItemOf(forest, item).(active := active, wanted := wanted));
      }
    }

    /** Tries a node and then its children, running the scripts of those that match. */
    method Match(x: int, fires: Fires) returns (matched: bool, left: Fires)
      requires Inv(View()) && depth > 0 && x in Ids(forest)
      modifies this
      ensures Matched(How(), old(View()), x, fires, View(), left, matched) && Kept(old(View()), View())
      ensures Progress(old(View()), fires, View(), left)
      decreases Burden(fires), 1, Size(Sub(forest, x)), 1
    {
      var node := ItemOf(forest, x);
      matched, left := false, fires;
      if !node.active && !(copies && node.folder && node.wanted) { return; }
      if node.active && (copies || !node.folder) {
        match fires {
          case NoMore => matched, left := MatchKids(x, fires);
          case Miss(more) => matched, left := MatchKids(x, more);
          case Hit(script, more) =>
            ghost var start := View();
            Run(script);
            matched, left := true, more;
            if matchAll {
              ghost var mid := View();
              var _, l := MatchKids(x, more);
              left := l;
              KeptTrans(start, mid, View());
            }
        }
      } else {
        matched, left := MatchKids(x, fires);
      }
    }

    /** Tries the `i`-th child of a node. */
    method TryChild(x: int, i: nat, fires: Fires) returns (hit: bool, left: Fires)
      requires Inv(View()) && depth > 0 && x in Ids(forest) && i < |Tops(Kids(forest, x))|
      modifies this
      ensures KidTried(How(), old(View()), x, i, fires, View(), left, hit) && Kept(old(View()), View())
      decreases Burden(fires), 1, Size(Sub(forest, x)), 0, 0
    {
      ChildLive(forest, x, i);
      hit, left := Match(Tops(Kids(forest, x))[i], fires);
    }

    /** Tries a node's children in turn. */
    method MatchKids(x: int, fires: Fires) returns (matched: bool, left: Fires)
      requires Inv(View()) && depth > 0 && x in Ids(forest)
      modifies this
      ensures Kidded(How(), old(View()), x, 0, fires, View(), left, matched) && Kept(old(View()), View())
      ensures Progress(old(View()), fires, View(), left)
      decreases Burden(fires), 1, Size(Sub(forest, x)), 0
    {
      matched, left := false, fires;
      var i := 0;
      ghost var w, start, now := How(), View(), View();
      while i < |Tops(Kids(forest, x))|
        invariant 0 <= i && now == View() && w == How()
        invariant Kept(start, now) && x in Ids(now.forest)
        invariant Progress(start, fires, now, left) && (matched ==> w.matchAll)
        invariant KidsSoFar(w, start, x, fires, now, i, left, matched)
        decreases Burden(left), |Tops(Kids(forest, x))| - i
      {
        ghost var had := left;
        var hit;
        hit, left := TryChild(x, i, left);
        ghost var mid := View();
        KeptTrans(start, now, mid);
        if hit && !matchAll {
          KidsStop(w, start, x, fires, now, i, had, matched, mid, left);
          matched := true;
          return;
        }
        KidsOn(w, start, x, fires, now, i, i + 1, had, matched, mid, left, hit);
        matched := matched || hit;
        i := i + 1;
        now := mid;
      }
      KidsEnd(w, start, x, fires, now, i, left, matched);
    }

    /** Tries the `i`-th root, unless it is switched off. */
    method TryRoot(listed: seq<int>, i: nat, fires: Fires) returns (hit: bool, left: Fires)
      requires Inv(View()) && depth > 0 && i < |if copies then listed else Tops(forest)|
      requires copies ==> listed[i] in Ids(forest)
      modifies this
      ensures RootTried(How(), old(View()), listed, i, fires, View(), left, hit) && Kept(old(View()), View())
      ensures Progress(old(View()), fires, View(), left)
      decreases Burden(fires), 2, 0, 0
    {
      if !copies { RootLive(forest, i); }
      var x := if copies then listed[i] else Tops(forest)[i];
      var node := ItemOf(forest, x);
      hit, left := false, fires;
      if node.active || (copies && node.wanted) {
        hit, left := Match(x, fires);
      }
    }

    /** Tries the roots in turn. */
    method WalkRoots(fires: Fires) returns (matched: bool)
      requires Inv(View()) && depth > 0
      modifies this
      ensures Walked(How(), old(View()), Tops(old(forest)), 0, fires, View(), matched) && Kept(old(View()), View())
      decreases Burden(fires), 2, 1, 0
    {
      matched := false;
      var left, i, listed := fires, 0, Tops(forest);
      ghost var w, start, now := How(), View(), View();
      forall k | 0 <= k < |listed| ensures listed[k] in Ids(forest) { RootLive(forest, k); }
      while i < |if copies then listed else Tops(forest)|
        invariant 0 <= i && now == View() && w == How()
        invariant Kept(start, now) && (forall k :: 0 <= k < |listed| ==> listed[k] in Ids(start.forest))
        invariant Progress(start, fires, now, left) && (matched ==> w.matchAll)
        invariant RootsSoFar(w, start, listed, fires, now, i, left, matched)
        decreases Burden(left), |if copies then listed else Tops(forest)| - i
      {
        ghost var had := left;
        var hit;
        hit, left := TryRoot(listed, i, left);
        ghost var mid := View();
        KeptTrans(start, now, mid);
        if hit && !matchAll {
          RootsStop(w, start, listed, fires, now, i, had, matched, mid, left);
          matched := true;
          return;
        }
        RootsOn(w, start, listed, fires, now, i, i + 1, had, matched, mid, left, hit);
        matched := matched || hit;
        i := i + 1;
        now := mid;
      }
      RootsEnd(w, start, listed, fires, now, i, left, matched);
    }

    /** One pass over the roots; only the outermost one ends with a cleanup. */
    method ProcessDataStream(fires: Fires) returns (matched: bool)
      requires Inv(View())
      modifies this
      ensures Processed(How(), old(View()), fires, View(), matched) && Kept(old(View()), View())
      ensures depth == 0 ==> queue == [] && cleanup == {}
      decreases Burden(fires), 3, 0, 0
    {
      ghost var before := View();
      depth := depth + 1;
      ghost var start := View();
      matched := WalkRoots(fires);
      ghost var mid := View();
      depth := depth - 1;
      if depth == 0 { DoCleanup(); }
      Completed(How(), before, fires, start, mid, matched, View());
      ProcessKeeps(How(), before, fires, View(), matched);
    }

    /** A button's script, in a lazy unit: nothing is freed, not even when it ends, so the button itself outlives it. */
    method Execute(script: Acts)
      requires Inv(View()) && lazy
      modifies this
      ensures Ran(How(), old(View()).(depth := old(depth) + 1), script, View().(depth := old(depth) + 1))
      ensures Inv(View()) && Held(old(View()), View())
    {
      depth := depth + 1;
      Run(script);
      depth := depth - 1;
    }
  }
}
