/**
  What scripts do to a unit while its nodes are being walked, as a relation between
  states (src/AliasUnit.cpp, src/KeyUnit.cpp, src/ActionUnit.cpp, src/TAlias.cpp and
  src/TKey.cpp match): scripts uninstall, kill, register, switch and start further
  passes, to any depth.  A step that would follow a link to a freed node relates to
  nothing.
*/
module UnitRuns {
  import opened Common
  import opened Forests
  import opened DeferredDeletion

  /** What one script does, in order. */
  datatype Acts = Done | Then(first: Act, rest: Acts)

  datatype Act =
    | Uninstall(package: string)
    | KillNamed(name: string)
    | Register(parent: int, node: Node)
    | Switch(item: int, active: bool, wanted: bool)
    | Process(fires: Fires)

  /** Which of the nodes walked match, in turn, and the scripts they run; after that, none does. */
  datatype Fires = NoMore | Miss(more: Fires) | Hit(script: Acts, more: Fires)

  /**
    How a unit walks.  The alias unit walks a copy of its root list and tries every
    node; the key unit walks the list itself and, unless it is to match all, stops
    at the first match.
  */
  datatype Walk = Walk(copies: bool, matchAll: bool)

  function Cost(a: Acts): nat {
    match a
    case Done => 0
    case Then(first, rest) => Weight(first) + Cost(rest)
  }

  function Weight(a: Act): (n: nat)
    ensures n > 0
  {
    1 + if a.Process? then Burden(a.fires) else 0
  }

  function Burden(f: Fires): nat {
    match f
    case NoMore => 0
    case Miss(more) => 1 + Burden(more)
    case Hit(script, more) => 1 + Cost(script) + Burden(more)
  }

  // ---------------------------------------------------------------- single steps

  function Switched(s: State, item: int, active: bool, wanted: bool): State {
    if item in Ids(s.forest)
    then s.(forest := Update(s.forest, item, ItemOf(s.forest, item).(active := active, wanted := wanted)))
    else s
  }

  function Killed(s: State, name: string): State {
    var x := Target(s.forest, name, s.cleanup);
    if x in Ids(s.forest) then Kill(s, x) else s
  }

  function Registered(s: State, parent: int, node: Node): State {
    if parent == 0 then AddRoot(s, node)
    else if Attachable(s.forest, s.queue, parent) then AddChild(s, parent, node)
    else s
  }

  /** A cleanup that takes the marked nodes in the order `c`. */
  ghost predicate CleanedIn(s: State, c: seq<int>, t: State) {
    Distinct(c) && (forall x :: x in c <==> x in s.cleanup) && t == Cleaned(s, c)
  }

  /** A cleanup in whatever order. */
  ghost predicate Flushed(s: State, t: State) {
    exists c :: CleanedIn(s, c, t)
  }

  ghost predicate Uninstalled(s: State, package: string, t: State) {
    if s.depth > 0 then t == Defer(s, package)
    else if s.lazy then Flushed(s.(queue := s.queue + Queued(s.forest, package)), t)
    else t == UninstallNow(s, package)
  }

  // ---------------------------------------------------------------- runs

  ghost predicate Acted(w: Walk, s: State, a: Act, t: State)
    decreases Weight(a), 3, 0, 0
  {
    match a
    case Uninstall(package) => Uninstalled(s, package, t)
    case KillNamed(name) => t == Killed(s, name)
    case Register(parent, node) => t == Registered(s, parent, node)
    case Switch(item, active, wanted) => t == Switched(s, item, active, wanted)
    case Process(fires) => if s.lazy then t == s else exists hit :: Processed(w, s, fires, t, hit)
  }

  ghost predicate Ran(w: Walk, s: State, script: Acts, t: State)
    decreases Cost(script), 4, 0, 0
  {
    match script
    case Done => t == s
    case Then(first, rest) => exists mid :: Acted(w, s, first, mid) && Ran(w, mid, rest, t)
  }

  /** The tokens go down, or nothing happened. */
  predicate Progress(s: State, fires: Fires, t: State, left: Fires) {
    Burden(left) < Burden(fires) || (left == fires && t == s)
  }

  /** One node tried, and its children. */
  ghost predicate Matched(w: Walk, s: State, x: int, fires: Fires, t: State, left: Fires, hit: bool)
    requires x in Ids(s.forest)
    decreases Burden(fires), 1, Size(Sub(s.forest, x)), 1, 0
  {
    var node := ItemOf(s.forest, x);
    if !node.active && !(w.copies && node.folder && node.wanted) then t == s && left == fires && !hit
    else if !node.active || !(w.copies || !node.folder) then Kidded(w, s, x, 0, fires, t, left, hit)
    else
      match fires
      case NoMore => Kidded(w, s, x, 0, fires, t, left, hit)
      case Miss(more) => Kidded(w, s, x, 0, more, t, left, hit)
      case Hit(script, more) =>
        && hit
        && (exists mid ::
              && Ran(w, s, script, mid) && x in Ids(mid.forest)
              && if w.matchAll then exists h :: Kidded(w, mid, x, 0, more, t, left, h) else t == mid && left == more)
  }

  /** The children from the `i`-th on. */
  ghost predicate Kidded(w: Walk, s: State, x: int, i: nat, fires: Fires, t: State, left: Fires, hit: bool)
    requires x in Ids(s.forest)
    decreases Burden(fires), 1, Size(Sub(s.forest, x)), 0, |Tops(Kids(s.forest, x))| - i
  {
    var list := Tops(Kids(s.forest, x));
    if i >= |list| then t == s && left == fires && !hit
    else
      var next := i + 1;
      && list[i] in Ids(s.forest) && Size(Sub(s.forest, list[i])) < Size(Sub(s.forest, x))
      && (exists mid, l, h ::
            && Matched(w, s, list[i], fires, mid, l, h) && Progress(s, fires, mid, l) && x in Ids(mid.forest)
            && if h && !w.matchAll then t == mid && left == l && hit
               else exists h' :: Kidded(w, mid, x, next, l, t, left, h') && hit == (h || h'))
  }

  /** The roots from the `i`-th on; `listed` is the copy made at the start. */
  ghost predicate Walked(w: Walk, s: State, listed: seq<int>, i: nat, fires: Fires, t: State, hit: bool)
    decreases Burden(fires), 2, |if w.copies then listed else Tops(s.forest)| - i, 0
  {
    var list := if w.copies then listed else Tops(s.forest);
    if i >= |list| then t == s && !hit
    else
      var x, next := list[i], i + 1;
      && x in Ids(s.forest)
      && if ItemOf(s.forest, x).active || (w.copies && ItemOf(s.forest, x).wanted) then
           exists mid, l, h ::
             && Matched(w, s, x, fires, mid, l, h) && Progress(s, fires, mid, l)
             && if h && !w.matchAll then t == mid && hit
                else exists h' :: Walked(w, mid, listed, next, l, t, h') && hit == (h || h')
         else Walked(w, s, listed, next, fires, t, hit)
  }

  /** Leaving a pass that was entered at this depth; only the outermost one ends with a cleanup. */
  ghost predicate Left(depth: nat, mid: State, t: State) {
    if depth == 0 then Flushed(mid.(depth := 0), t) else t == mid.(depth := depth)
  }

  /** A whole pass, and whether anything matched. */
  ghost predicate Processed(w: Walk, s: State, fires: Fires, t: State, hit: bool)
    decreases Burden(fires), 3, 0, 0
  {
    var start := s.(depth := s.depth + 1);
    exists mid :: Walked(w, start, Tops(s.forest), 0, fires, mid, hit) && Left(s.depth, mid, t)
  }

  // ---------------------------------------------------------------- following links

  lemma {:induction false} TopOfKids<T>(f: Forest<T>, i: nat)
    requires i < |Tops(f)|
    ensures Tops(f)[i] in Ids(f) && Size(Sub(f, Tops(f)[i])) <= Size(f)
  {
    if i > 0 { TopOfKids(f.rest, i - 1); }
    SubSize(f, Tops(f)[i]);
  }

  lemma {:induction false} SubSize<T>(f: Forest<T>, x: int)
    ensures Size(Sub(f, x)) <= Size(f)
  {
    if f.Cons? {
      SubSize(f.kids, x);
      SubSize(f.rest, x);
    }
  }

  /** The children of a live node are live and below it. */
  lemma {:induction false} ChildLive<T>(f: Forest<T>, x: int, i: nat)
    requires Wf(f) && x in Ids(f) && i < |Tops(Kids(f, x))|
    ensures Tops(Kids(f, x))[i] in Ids(f) && Size(Sub(f, Tops(Kids(f, x))[i])) < Size(Sub(f, x))
  {
    TopOfKids(Kids(f, x), i);
    SubKids(f, x, Tops(Kids(f, x))[i]);
  }

  lemma {:induction false} RootLive<T>(f: Forest<T>, i: nat)
    requires i < |Tops(f)|
    ensures Tops(f)[i] in Ids(f)
  {
    TopOfKids(f, i);
  }

  // ---------------------------------------------------------------- what every run keeps

  /** The invariant holds, the depth is back, and while processing is under way nothing has been freed. */
  ghost predicate Kept(s: State, t: State) {
    Inv(t) && t.depth == s.depth && t.lazy == s.lazy && (s.depth > 0 ==> Held(s, t))
  }

  lemma {:induction false} KeptTrans(s: State, mid: State, t: State)
    requires Kept(s, mid) && Kept(mid, t)
    ensures Kept(s, t)
  {
  }

  lemma {:induction false} SwitchKeeps(s: State, item: int, active: bool, wanted: bool)
    requires Inv(s)
    ensures Inv(Switched(s, item, active, wanted)) && Held(s, Switched(s, item, active, wanted))
  {
    if item in Ids(s.forest) {
      var f, data := s.forest, ItemOf(s.forest, item).(active := active, wanted := wanted);
      var g := Update(f, item, data);
      UpdateIds(f, item, data);
      forall z
        ensures Kids(g, z) == Update(Kids(f, z), item, data)
        ensures z in Ids(f) ==> ItemOf(g, z) == if z == item then data else ItemOf(f, z)
      {
        KidsUpdate(f, item, data, z);
      }
      forall z, y | AtTop(Kids(g, z), y) ensures AtTop(Kids(f, z), y) { TopUpdate(Kids(f, z), item, data, y); }
      SameTreeInv(s, g);
    }
  }

  lemma {:induction false} TargetTemporary(f: Forest<Node>, name: string, marked: set<int>)
    requires Wf(f) && Target(f, name, marked) != 0
    ensures var x := Target(f, name, marked); x in Ids(f) && ItemOf(f, x).temporary
  {
    if !(f.item.name == name && f.item.temporary && f.id !in marked) { TargetTemporary(f.rest, name, marked); }
  }

  lemma {:induction false} KilledKeeps(s: State, name: string)
    requires Inv(s)
    ensures Inv(Killed(s, name)) && Held(s, Killed(s, name))
  {
    var x := Target(s.forest, name, s.cleanup);
    if x in Ids(s.forest) {
      assert x != 0;
      TargetTemporary(s.forest, name, s.cleanup);
      KillInv(s, x);
    }
  }

  lemma {:induction false} RegisteredKeeps(s: State, parent: int, node: Node)
    requires Inv(s)
    ensures Inv(Registered(s, parent, node)) && Held(s, Registered(s, parent, node))
  {
    if parent == 0 { AddRootInv(s, node); }
    else if Attachable(s.forest, s.queue, parent) { AddChildInv(s, parent, node); }
  }

  lemma {:induction false} FlushedKeeps(s: State, t: State)
    requires Sound(s) && Flushed(s, t)
    ensures Inv(t) && t.depth == s.depth && t.lazy == s.lazy && t.queue == [] && t.cleanup == {}
  {
    var c :| CleanedIn(s, c, t);
    CleanedExactly(s, c);
  }

  lemma {:induction false} UninstalledKeeps(s: State, package: string, t: State)
    requires Inv(s) && Uninstalled(s, package, t)
    ensures Kept(s, t)
  {
    if s.depth > 0 {
      DeferInv(s, package);
    } else if s.lazy {
      EnqueueSound(s, package);
      FlushedKeeps(s.(queue := s.queue + Queued(s.forest, package)), t);
    } else {
      UninstallNowFacts(s, package);
      UninstallNowFields(s, package);
    }
  }

  lemma {:induction false} UninstallNowFields(s: State, package: string)
    requires Inv(s)
    ensures UninstallNow(s, package).depth == s.depth && UninstallNow(s, package).lazy == s.lazy
  {
    var q := Queued(s.forest, package);
    QueuedFacts(s.forest, package);
    StartPending(s.forest, q);
    FlushFrees(s, q, {});
  }

  lemma {:induction false} ActKeeps(w: Walk, s: State, a: Act, t: State)
    requires Inv(s) && Acted(w, s, a, t)
    ensures Kept(s, t)
    decreases Weight(a), 3, 0, 0
  {
    match a {
      case Uninstall(package) => UninstalledKeeps(s, package, t);
      case KillNamed(name) => KilledKeeps(s, name);
      case Register(parent, node) => RegisteredKeeps(s, parent, node);
      case Switch(item, active, wanted) => SwitchKeeps(s, item, active, wanted);
      case Process(fires) =>
        if !s.lazy {
          var hit :| Processed(w, s, fires, t, hit);
          ProcessKeeps(w, s, fires, t, hit);
        }
    }
  }

  /** Any script, with any nesting, keeps the invariant, and while processing is under way it frees nothing. */
  lemma {:induction false} RunKeeps(w: Walk, s: State, script: Acts, t: State)
    requires Inv(s) && Ran(w, s, script, t)
    ensures Kept(s, t)
    decreases Cost(script), 4, 0, 0
  {
    if script.Then? {
      var mid :| Acted(w, s, script.first, mid) && Ran(w, mid, script.rest, t);
      ActKeeps(w, s, script.first, mid);
      RunKeeps(w, mid, script.rest, t);
      KeptTrans(s, mid, t);
    }
  }

  lemma {:induction false} MatchKeeps(w: Walk, s: State, x: int, fires: Fires, t: State, left: Fires, hit: bool)
    requires Inv(s) && s.depth > 0 && x in Ids(s.forest) && Matched(w, s, x, fires, t, left, hit)
    ensures Kept(s, t)
    decreases Burden(fires), 1, Size(Sub(s.forest, x)), 1, 0
  {
    var node := ItemOf(s.forest, x);
    if !node.active && !(w.copies && node.folder && node.wanted) {
    } else if !node.active || !(w.copies || !node.folder) {
      KidsKeep(w, s, x, 0, fires, t, left, hit);
    } else {
      match fires {
        case NoMore => KidsKeep(w, s, x, 0, fires, t, left, hit);
        case Miss(more) => KidsKeep(w, s, x, 0, more, t, left, hit);
        case Hit(script, more) =>
          var mid :| Ran(w, s, script, mid) && x in Ids(mid.forest) &&
                     if w.matchAll then exists h :: Kidded(w, mid, x, 0, more, t, left, h)
                     else t == mid && left == more;
          RunKeeps(w, s, script, mid);
          if w.matchAll {
            var h :| Kidded(w, mid, x, 0, more, t, left, h);
            KidsKeep(w, mid, x, 0, more, t, left, h);
            KeptTrans(s, mid, t);
          }
      }
    }
  }

  lemma {:induction false} KidsKeep(w: Walk, s: State, x: int, i: nat, fires: Fires, t: State, left: Fires, hit: bool)
    requires Inv(s) && s.depth > 0 && x in Ids(s.forest) && Kidded(w, s, x, i, fires, t, left, hit)
    ensures Kept(s, t)
    decreases Burden(fires), 1, Size(Sub(s.forest, x)), 0, |Tops(Kids(s.forest, x))| - i
  {
    var list, next := Tops(Kids(s.forest, x)), i + 1;
    if i < |list| {
      var mid, l, h :| Matched(w, s, list[i], fires, mid, l, h) && Progress(s, fires, mid, l) && x in Ids(mid.forest)
                       && if h && !w.matchAll then t == mid && left == l && hit
                          else exists h' :: Kidded(w, mid, x, next, l, t, left, h') && hit == (h || h');
      MatchKeeps(w, s, list[i], fires, mid, l, h);
      if !(h && !w.matchAll) {
        var h' :| Kidded(w, mid, x, next, l, t, left, h') && hit == (h || h');
        KidsKeep(w, mid, x, next, l, t, left, h');
        KeptTrans(s, mid, t);
      }
    }
  }

  lemma {:induction false} WalkKeeps(w: Walk, s: State, listed: seq<int>, i: nat, fires: Fires, t: State, hit: bool)
    requires Inv(s) && s.depth > 0 && Walked(w, s, listed, i, fires, t, hit)
    ensures Kept(s, t)
    decreases Burden(fires), 2, |if w.copies then listed else Tops(s.forest)| - i, 0
  {
    var list := if w.copies then listed else Tops(s.forest);
    if i < |list| {
      var x, next := list[i], i + 1;
      if ItemOf(s.forest, x).active || (w.copies && ItemOf(s.forest, x).wanted) {
        var mid, l, h :| Matched(w, s, x, fires, mid, l, h) && Progress(s, fires, mid, l)
                         && if h && !w.matchAll then t == mid && hit
                            else exists h' :: Walked(w, mid, listed, next, l, t, h') && hit == (h || h');
        MatchKeeps(w, s, x, fires, mid, l, h);
        if !(h && !w.matchAll) {
          var h' :| Walked(w, mid, listed, next, l, t, h') && hit == (h || h');
          assert Progress(s, fires, mid, l);
          WalkKeeps(w, mid, listed, next, l, t, h');
          KeptTrans(s, mid, t);
        }
      } else {
        WalkKeeps(w, s, listed, next, fires, t, hit);
      }
    }
  }

  /** A pass keeps the invariant; nested, it frees nothing, and outermost, it ends with nothing marked or queued. */
  lemma {:induction false} ProcessKeeps(w: Walk, s: State, fires: Fires, t: State, hit: bool)
    requires Inv(s) && Processed(w, s, fires, t, hit)
    ensures Kept(s, t) && (s.depth == 0 ==> t.queue == [] && t.cleanup == {})
    decreases Burden(fires), 3, 0, 0
  {
    var start := s.(depth := s.depth + 1);
    var mid :| Walked(w, start, Tops(s.forest), 0, fires, mid, hit) && Left(s.depth, mid, t);
    WalkKeeps(w, start, Tops(s.forest), 0, fires, mid, hit);
    if s.depth == 0 { FlushedKeeps(mid.(depth := 0), t); }
  }

  // ---------------------------------------------------------------- runs, one step at a time

  /** Whatever completes the children from the `i`-th on completes them all. */
  ghost predicate KidsSoFar(w: Walk, start: State, x: int, fires: Fires, s: State, i: nat, left: Fires, found: bool)
    requires x in Ids(start.forest) && x in Ids(s.forest)
  {
    forall t, l, h :: Kidded(w, s, x, i, left, t, l, h) ==> Kidded(w, start, x, 0, fires, t, l, found || h)
  }

  /** The `i`-th child has been tried. */
  ghost predicate KidTried(w: Walk, s: State, x: int, i: nat, left: Fires, mid: State, l: Fires, h: bool)
    requires x in Ids(s.forest)
  {
    var list := Tops(Kids(s.forest, x));
    && i < |list| && list[i] in Ids(s.forest) && Size(Sub(s.forest, list[i])) < Size(Sub(s.forest, x))
    && Matched(w, s, list[i], left, mid, l, h) && Progress(s, left, mid, l) && x in Ids(mid.forest)
  }

  lemma {:induction false} KidStep(w: Walk, s: State, x: int, i: nat, next: nat, left: Fires, mid: State, l: Fires,
                                   h: bool,
                                   t: State, l': Fires, h': bool)
    requires x in Ids(s.forest) && KidTried(w, s, x, i, left, mid, l, h) && next == i + 1 && (h ==> w.matchAll)
    requires Kidded(w, mid, x, next, l, t, l', h')
    ensures Kidded(w, s, x, i, left, t, l', h || h')
  {
  }

  lemma {:induction false} KidsOn(w: Walk, start: State, x: int, fires: Fires, s: State, i: nat, next: nat,
                                  left: Fires, found: bool,
                                  mid: State, l: Fires, h: bool)
    requires x in Ids(start.forest) && x in Ids(s.forest) && KidsSoFar(w, start, x, fires, s, i, left, found)
    requires KidTried(w, s, x, i, left, mid, l, h) && next == i + 1 && (h ==> w.matchAll)
    ensures KidsSoFar(w, start, x, fires, mid, next, l, found || h)
  {
    forall t, l', h' | Kidded(w, mid, x, next, l, t, l', h')
      ensures Kidded(w, start, x, 0, fires, t, l', (found || h) || h') {
      KidStep(w, s, x, i, next, left, mid, l, h, t, l', h');
    }
  }

  lemma {:induction false} KidsStop(w: Walk, start: State, x: int, fires: Fires, s: State, i: nat, left: Fires,
                                    found: bool,
                                    mid: State, l: Fires)
    requires x in Ids(start.forest) && x in Ids(s.forest) && KidsSoFar(w, start, x, fires, s, i, left, found)
    requires KidTried(w, s, x, i, left, mid, l, true) && !w.matchAll
    ensures Kidded(w, start, x, 0, fires, mid, l, true)
  {
    assert Kidded(w, s, x, i, left, mid, l, true);
    assert Kidded(w, start, x, 0, fires, mid, l, found || true);
  }

  lemma {:induction false} KidsEnd(w: Walk, start: State, x: int, fires: Fires, s: State, i: nat, left: Fires,
                                   found: bool)
    requires x in Ids(start.forest) && x in Ids(s.forest) && KidsSoFar(w, start, x, fires, s, i, left, found)
    requires i >= |Tops(Kids(s.forest, x))|
    ensures Kidded(w, start, x, 0, fires, s, left, found)
  {
    assert Kidded(w, s, x, i, left, s, left, false);
    assert Kidded(w, start, x, 0, fires, s, left, found || false);
  }

  /** Whatever completes the roots from the `i`-th on completes them all. */
  ghost predicate RootsSoFar(w: Walk, start: State, listed: seq<int>, fires: Fires, s: State, i: nat, left: Fires,
                             found: bool) {
    forall t, h :: Walked(w, s, listed, i, left, t, h) ==> Walked(w, start, listed, 0, fires, t, found || h)
  }

  /** The `i`-th root has been tried, or is switched off and was passed over. */
  ghost predicate RootTried(w: Walk, s: State, listed: seq<int>, i: nat, left: Fires, mid: State, l: Fires, h: bool) {
    var list := if w.copies then listed else Tops(s.forest);
    && i < |list| && list[i] in Ids(s.forest)
    && if ItemOf(s.forest, list[i]).active || (w.copies && ItemOf(s.forest, list[i]).wanted)
       then Matched(w, s, list[i], left, mid, l, h) && Progress(s, left, mid, l)
       else mid == s && l == left && !h
  }

  lemma {:induction false} RootStep(w: Walk, s: State, listed: seq<int>, i: nat, next: nat, left: Fires, mid: State,
                                    l: Fires, h: bool,
                                    t: State, h': bool)
    requires RootTried(w, s, listed, i, left, mid, l, h) && next == i + 1 && (h ==> w.matchAll)
    requires Walked(w, mid, listed, next, l, t, h')
    ensures Walked(w, s, listed, i, left, t, h || h')
  {
  }

  lemma {:induction false} RootsOn(w: Walk, start: State, listed: seq<int>, fires: Fires, s: State, i: nat, next: nat,
                                   left: Fires,
                                   found: bool, mid: State, l: Fires, h: bool)
    requires RootsSoFar(w, start, listed, fires, s, i, left, found)
    requires RootTried(w, s, listed, i, left, mid, l, h) && next == i + 1 && (h ==> w.matchAll)
    ensures RootsSoFar(w, start, listed, fires, mid, next, l, found || h)
  {
    forall t, h' | Walked(w, mid, listed, next, l, t, h')
      ensures Walked(w, start, listed, 0, fires, t, (found || h) || h') {
      RootStep(w, s, listed, i, next, left, mid, l, h, t, h');
    }
  }

  lemma {:induction false} RootsStop(w: Walk, start: State, listed: seq<int>, fires: Fires, s: State, i: nat,
                                     left: Fires, found: bool,
                                     mid: State, l: Fires)
    requires RootsSoFar(w, start, listed, fires, s, i, left, found)
    requires RootTried(w, s, listed, i, left, mid, l, true) && !w.matchAll
    ensures Walked(w, start, listed, 0, fires, mid, true)
  {
    assert Walked(w, s, listed, i, left, mid, true);
    assert Walked(w, start, listed, 0, fires, mid, found || true);
  }

  lemma {:induction false} RootsEnd(w: Walk, start: State, listed: seq<int>, fires: Fires, s: State, i: nat,
                                    left: Fires, found: bool)
    requires RootsSoFar(w, start, listed, fires, s, i, left, found)
    requires i >= |if w.copies then listed else Tops(s.forest)|
    ensures Walked(w, start, listed, 0, fires, s, found)
  {
    assert Walked(w, s, listed, i, left, s, false);
    assert Walked(w, start, listed, 0, fires, s, found || false);
  }

  lemma {:induction false} Completed(w: Walk, s: State, fires: Fires, start: State, mid: State, hit: bool, t: State)
    requires start == s.(depth := s.depth + 1) && Walked(w, start, Tops(s.forest), 0, fires, mid, hit)
    requires Left(s.depth, mid, t)
    ensures Processed(w, s, fires, t, hit)
  {
  }
}
