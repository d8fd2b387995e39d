/**
  What a pass over a unit's nodes comes to (src/AliasUnit.cpp and src/KeyUnit.cpp,
  processDataStream; src/TAlias.cpp and src/TKey.cpp, match): the scripts of the nodes
  that match run one after another and nothing else happens; the nodes are asked in
  pre-order, for as long as no script changes the forest.
*/
module UnitPasses {
  import opened Common
  import opened Forests
  import opened DeferredDeletion
  import opened UnitActs
  import opened UnitRuns

  // ---------------------------------------------------------------- scripts that were started

  /** A script that was started, the node it belongs to, and the unit when it was over. */
  datatype Start = Start(node: int, script: Acts, over: State)

  /** The node's own pattern is tried. */
  predicate Asks(w: Walk, node: Node) {
    node.active && (w.copies || !node.folder)
  }

  /** The node's children are tried. */
  predicate Enters(w: Walk, node: Node) {
    node.active || (w.copies && node.folder && node.wanted)
  }

  /** From `s`, the scripts ran one after another, each for a node that was there and on, and led to `t`. */
  ghost predicate RanEach(w: Walk, s: State, starts: seq<Start>, t: State)
    decreases |starts|
  {
    if starts == [] then t == s
    else RanAt(w, s, starts[0]) && RanEach(w, starts[0].over, starts[1..], t)
  }

  ghost predicate RanAt(w: Walk, s: State, a: Start) {
    a.node in Ids(s.forest) && Asks(w, ItemOf(s.forest, a.node)) && Ran(w, s, a.script, a.over)
  }

  lemma {:induction false} RanConcat(w: Walk, s: State, a: seq<Start>, mid: State, b: seq<Start>, t: State)
    requires RanEach(w, s, a, mid) && RanEach(w, mid, b, t)
    ensures RanEach(w, s, a + b, t)
    decreases |a|
  {
    if a == [] {
      assert a + b == b;
    } else {
      RanConcat(w, a[0].over, a[1..], mid, b, t);
      assert (a + b)[0] == a[0] && (a + b)[1..] == a[1..] + b;
    }
  }

  function Scripts(starts: seq<Start>): seq<Acts> {
    if starts == [] then [] else [starts[0].script] + Scripts(starts[1..])
  }

  lemma {:induction false} ScriptsLength(starts: seq<Start>)
    ensures |Scripts(starts)| == |starts|
  {
    if starts != [] { ScriptsLength(starts[1..]); }
  }

  lemma {:induction false} ScriptsConcat(a: seq<Start>, b: seq<Start>)
    ensures Scripts(a + b) == Scripts(a) + Scripts(b)
  {
    if a == [] {
      assert a + b == b;
    } else {
      ScriptsConcat(a[1..], b);
      assert (a + b)[0] == a[0] && (a + b)[1..] == a[1..] + b;
    }
  }

  // ---------------------------------------------------------------- outcomes in turn

  /** What is left after `n` nodes have been asked. */
  function Rest(fires: Fires, n: nat): Fires {
    if n == 0 || fires.NoMore? then fires else Rest(fires.more, n - 1)
  }

  /** The scripts of those of the first `n` nodes asked that match. */
  function Hits(fires: Fires, n: nat): seq<Acts> {
    if n == 0 || fires.NoMore? then []
    else (if fires.Hit? then [fires.script] else []) + Hits(fires.more, n - 1)
  }

  lemma {:induction false} RestRest(fires: Fires, a: nat, b: nat)
    ensures Rest(Rest(fires, a), b) == Rest(fires, a + b)
    ensures Hits(fires, a + b) == Hits(fires, a) + Hits(Rest(fires, a), b)
  {
    if a > 0 && !fires.NoMore? { RestRest(fires.more, a - 1, b); }
  }

  /** What is left, and which scripts the outcomes used up have given. */
  ghost predicate Used(fires: Fires, left: Fires, scripts: seq<Acts>) {
    exists n: nat :: left == Rest(fires, n) && scripts == Hits(fires, n)
  }

  lemma {:induction false} UsedOn(fires: Fires, mid: Fires, left: Fires, a: seq<Acts>, b: seq<Acts>)
    requires Used(fires, mid, a) && Used(mid, left, b)
    ensures Used(fires, left, a + b)
  {
    var n: nat :| mid == Rest(fires, n) && a == Hits(fires, n);
    var m: nat :| left == Rest(mid, m) && b == Hits(mid, m);
    RestRest(fires, n, m);
    assert left == Rest(fires, n + m) && a + b == Hits(fires, n + m);
  }

  // ---------------------------------------------------------------- who is asked

  /** The nodes whose pattern is tried, in pre-order: those that are on, below nodes that are entered. */
  function Asked(w: Walk, f: Forest<Node>): seq<int> {
    match f
    case Nil => []
    case Cons(id, item, kids, rest) =>
      (if Asks(w, item) then [id] else []) + (if Enters(w, item) then Asked(w, kids) else []) + Asked(w, rest)
  }

  /** Which script is due for which of these nodes, asked in this order; unless all are to match, only the first. */
  function Served(w: Walk, asked: seq<int>, fires: Fires): seq<(int, Acts)>
    decreases |asked|
  {
    if asked == [] then []
    else
      match fires
      case NoMore => []
      case Miss(more) => Served(w, asked[1..], more)
      case Hit(script, more) => [(asked[0], script)] + if w.matchAll then Served(w, asked[1..], more) else []
  }

  lemma {:induction false} ServedConcat(w: Walk, a: seq<int>, b: seq<int>, fires: Fires)
    ensures Served(w, a + b, fires)
         == if !w.matchAll && Served(w, a, fires) != [] then Served(w, a, fires)
            else Served(w, a, fires) + Served(w, b, Rest(fires, |a|))
    decreases |a|
  {
    if a == [] {
      assert a + b == b;
    } else {
      assert (a + b)[0] == a[0] && (a + b)[1..] == a[1..] + b;
      if !fires.NoMore? { ServedConcat(w, a[1..], b, fires.more); } else { ServedNone(w, b); }
    }
  }

  lemma {:induction false} ServedNone(w: Walk, asked: seq<int>)
    ensures Served(w, asked, NoMore) == []
  {
  }

  /** No script has changed the forest. */
  ghost predicate AllSame(f: Forest<Node>, starts: seq<Start>) {
    forall k :: 0 <= k < |starts| ==> starts[k].over.forest == f
  }

  /** The scripts started are those that were due, up to and with the first that changes the forest. */
  ghost predicate Agrees(f: Forest<Node>, starts: seq<Start>, served: seq<(int, Acts)>)
    decreases |starts|
  {
    if starts == [] then served == []
    else
      && served != [] && served[0] == (starts[0].node, starts[0].script)
      && (starts[0].over.forest == f ==> Agrees(f, starts[1..], served[1..]))
  }

  lemma {:induction false} AgreesConcat(f: Forest<Node>, a: seq<Start>, sa: seq<(int, Acts)>, b: seq<Start>,
                                        sb: seq<(int, Acts)>)
    requires Agrees(f, a, sa) && (AllSame(f, a) ==> Agrees(f, b, sb))
    ensures Agrees(f, a + b, sa + sb)
    decreases |a|
  {
    if a == [] {
      assert a + b == b && sa + sb == sb;
    } else {
      assert (a + b)[0] == a[0] && (a + b)[1..] == a[1..] + b;
      if a[0].over.forest == f {
        assert AllSame(f, a[1..]) ==> AllSame(f, a) by {
          if AllSame(f, a[1..]) {
            forall k | 0 <= k < |a| ensures a[k].over.forest == f { if k > 0 { assert a[1..][k - 1] == a[k]; } }
          }
        }
        AgreesConcat(f, a[1..], sa[1..], b, sb);
        assert (sa + sb)[1..] == sa[1..] + sb;
      }
    }
  }

  // ---------------------------------------------------------------- a stretch of the walk

  /**
    A stretch of the walk in which these nodes would be asked if no script changed
    anything: the scripts started ran one after another, they are those of the outcomes
    used up and the ones that were due, and something matched if and only if one was.
  */
  ghost predicate Went(w: Walk, s: State, asked: seq<int>, fires: Fires, t: State, left: Fires, hit: bool,
                       starts: seq<Start>) {
    && RanEach(w, s, starts, t)
    && Used(fires, left, Scripts(starts))
    && (hit <==> starts != [])
    && (!w.matchAll ==> |starts| <= 1)
    && Agrees(s.forest, starts, Served(w, asked, fires))
    && (AllSame(s.forest, starts) && (w.matchAll || !hit) ==> left == Rest(fires, |asked|))
  }

  lemma {:induction false} LastOver(w: Walk, s: State, starts: seq<Start>, t: State)
    requires RanEach(w, s, starts, t) && AllSame(s.forest, starts)
    ensures t.forest == s.forest
    decreases |starts|
  {
    if starts != [] {
      assert starts[0].over.forest == s.forest;
      forall k | 0 <= k < |starts[1..]| ensures starts[1..][k].over.forest == s.forest {
        assert starts[1..][k] == starts[k + 1];
      }
      LastOver(w, starts[0].over, starts[1..], t);
    }
  }

  /** Nothing to ask. */
  lemma {:induction false} WentNowhere(w: Walk, s: State, fires: Fires)
    ensures Went(w, s, [], fires, s, fires, false, [])
  {
    assert fires == Rest(fires, 0) && Scripts([]) == Hits(fires, 0);
  }

  lemma {:induction false} SameBoth(f: Forest<Node>, a: seq<Start>, b: seq<Start>)
    requires AllSame(f, a + b)
    ensures AllSame(f, a) && AllSame(f, b)
  {
    forall k | 0 <= k < |a| ensures a[k].over.forest == f { assert (a + b)[k] == a[k]; }
    forall k | 0 <= k < |b| ensures b[k].over.forest == f { assert (a + b)[|a| + k] == b[k]; }
  }

  /** Two stretches, one after the other; the second list counts only if the first has changed nothing. */
  lemma {:induction false} WentOn(w: Walk, s: State, asked: seq<int>, fires: Fires, mid: State, l: Fires, h: bool,
                                  a: seq<Start>, asked': seq<int>, more: seq<int>, t: State, left: Fires, h': bool,
                                  b: seq<Start>)
    requires Went(w, s, asked, fires, mid, l, h, a) && (h ==> w.matchAll)
    requires Went(w, mid, asked', l, t, left, h', b)
    requires mid.forest == s.forest ==> asked' == more
    ensures Went(w, s, asked + more, fires, t, left, h || h', a + b)
  {
    RanConcat(w, s, a, mid, b, t);
    ScriptsConcat(a, b);
    UsedOn(fires, l, left, Scripts(a), Scripts(b));
    ServedConcat(w, asked, more, fires);
    if AllSame(s.forest, a) {
      LastOver(w, s, a, mid);
    }
    if !w.matchAll { assert Served(w, asked, fires) == []; }
    AgreesConcat(s.forest, a, Served(w, asked, fires), b, Served(w, more, Rest(fires, |asked|)));
    if AllSame(s.forest, a + b) {
      SameBoth(s.forest, a, b);
      RestRest(fires, |asked|, |more|);
    }
  }

  /** In a walk that stops at the first match, a match ends it. */
  lemma {:induction false} WentStop(w: Walk, s: State, asked: seq<int>, fires: Fires, t: State, left: Fires,
                                    a: seq<Start>, more: seq<int>)
    requires Went(w, s, asked, fires, t, left, true, a) && !w.matchAll
    ensures Went(w, s, asked + more, fires, t, left, true, a)
  {
    ServedConcat(w, asked, more, fires);
  }

  /** One node asked: no outcome is left, it does not match, or it does and its script runs. */
  lemma {:induction false} WentAsk(w: Walk, s: State, x: int, fires: Fires, mid: State) returns (starts: seq<Start>)
    requires x in Ids(s.forest) && Asks(w, ItemOf(s.forest, x))
    requires if fires.Hit? then Ran(w, s, fires.script, mid) else mid == s
    ensures Went(w, s, [x], fires, mid, Rest(fires, 1), fires.Hit?, starts)
  {
    starts := if fires.Hit? then [Start(x, fires.script, mid)] else [];
    assert Rest(fires, 1) == Rest(fires, 1) && Hits(fires, 1) == if fires.Hit? then [fires.script] else [];
    assert starts != [] ==> starts[1..] == [] && Scripts(starts) == [fires.script] + Scripts([]);
    assert Scripts(starts) == Hits(fires, 1);
    assert [x][1..] == [];
  }

  // ---------------------------------------------------------------- trees and lists of roots

  /** The roots from the `i`-th on. */
  function From<T>(f: Forest<T>, i: nat): Forest<T> {
    if i == 0 || f.Nil? then f else From(f.rest, i - 1)
  }

  /** The nodes asked in one tree: its root first, then those below it. */
  lemma {:induction false} AskedTree(w: Walk, f: Forest<Node>, x: int)
    requires x in Ids(f)
    ensures var node := ItemOf(f, x);
            Asked(w, Sub(f, x))
              == (if Asks(w, node) then [x] else []) + if Enters(w, node) then Asked(w, Kids(f, x)) else []
  {
    SubIs(f, x);
    var rest: Forest<Node> := Nil;
    assert Asked(w, rest) == [];
  }

  lemma {:induction false} AskedFrom(w: Walk, f: Forest<Node>, i: nat)
    requires Wf(f) && i < |Tops(f)|
    ensures Tops(f)[i] in Ids(f)
    ensures Asked(w, From(f, i)) == Asked(w, Sub(f, Tops(f)[i])) + Asked(w, From(f, i + 1))
  {
    if i == 0 {
      var here, rest := Cons(f.id, f.item, f.kids, Nil), f.rest;
      assert Sub(f, f.id) == here && From(f, 1) == From(rest, 0) == rest;
      var none: Forest<Node> := Nil;
      assert Asked(w, none) == [];
      assert Asked(w, here)
             == (if Asks(w, f.item) then [f.id] else []) + (if Enters(w, f.item) then Asked(w, f.kids) else []);
    } else {
      AskedFrom(w, f.rest, i - 1);
      assert Tops(f)[i] == Tops(f.rest)[i - 1];
      assert From(f, i) == From(f.rest, i - 1) && From(f, i + 1) == From(f.rest, i);
    }
  }

  lemma {:induction false} AskedKids(w: Walk, f: Forest<Node>, x: int, i: nat)
    requires Wf(f) && i < |Tops(Kids(f, x))|
    ensures Tops(Kids(f, x))[i] in Ids(f)
    ensures var k := Kids(f, x); Asked(w, From(k, i)) == Asked(w, Sub(f, Tops(k)[i])) + Asked(w, From(k, i + 1))
  {
    KidsWf(f, x);
    AskedFrom(w, Kids(f, x), i);
    SubKids(f, x, Tops(Kids(f, x))[i]);
  }

  lemma {:induction false} FromEnd<T>(f: Forest<T>, i: nat)
    requires i >= |Tops(f)|
    ensures From(f, i) == Nil
  {
    if f.Cons? && i > 0 { FromEnd(f.rest, i - 1); }
  }

  // ---------------------------------------------------------------- the walk

  lemma {:induction false} MatchedWent(w: Walk, s: State, x: int, fires: Fires, t: State, left: Fires, hit: bool)
    returns (starts: seq<Start>)
    requires Inv(s) && s.depth > 0 && x in Ids(s.forest) && Matched(w, s, x, fires, t, left, hit)
    ensures Went(w, s, Asked(w, Sub(s.forest, x)), fires, t, left, hit, starts)
    decreases Burden(fires), 1, Size(Sub(s.forest, x)), 1, 0
  {
    var node, kids := ItemOf(s.forest, x), Asked(w, Kids(s.forest, x));
    AskedTree(w, s.forest, x);
    if !Enters(w, node) {
      WentNowhere(w, s, fires);
      starts := [];
    } else if !Asks(w, node) {
      starts := KidsWent(w, s, x, 0, fires, t, left, hit);
      assert [] + kids == kids;
    } else if !fires.Hit? {
      starts := MissWent(w, s, x, fires, t, left, hit);
    } else {
      starts := HitWent(w, s, x, fires, t, left, hit);
    }
  }

  lemma {:induction false} MissWent(w: Walk, s: State, x: int, fires: Fires, t: State, left: Fires, hit: bool)
    returns (starts: seq<Start>)
    requires Inv(s) && s.depth > 0 && x in Ids(s.forest) && Matched(w, s, x, fires, t, left, hit)
    requires Asks(w, ItemOf(s.forest, x)) && !fires.Hit?
    ensures Went(w, s, [x] + Asked(w, Kids(s.forest, x)), fires, t, left, hit, starts)
    decreases Burden(fires), 1, Size(Sub(s.forest, x)), 0, |Tops(Kids(s.forest, x))| + 1
  {
    var more, kids := if fires.Miss? then fires.more else fires, Asked(w, Kids(s.forest, x));
    assert Kidded(w, s, x, 0, more, t, left, hit);
    assert Rest(fires, 1) == more;
    var a := WentAsk(w, s, x, fires, s);
    var b := KidsWent(w, s, x, 0, more, t, left, hit);
    WentOn(w, s, [x], fires, s, more, false, a, kids, kids, t, left, hit, b);
    starts := a + b;
  }

  lemma {:induction false} HitWent(w: Walk, s: State, x: int, fires: Fires, t: State, left: Fires, hit: bool)
    returns (starts: seq<Start>)
    requires Inv(s) && s.depth > 0 && x in Ids(s.forest) && Matched(w, s, x, fires, t, left, hit)
    requires Asks(w, ItemOf(s.forest, x)) && fires.Hit?
    ensures Went(w, s, [x] + Asked(w, Kids(s.forest, x)), fires, t, left, hit, starts)
    decreases Burden(fires), 1, Size(Sub(s.forest, x)), 0, 0
  {
    var script, more, kids := fires.script, fires.more, Asked(w, Kids(s.forest, x));
    var mid :| Ran(w, s, script, mid) && x in Ids(mid.forest) &&
               if w.matchAll then exists h :: Kidded(w, mid, x, 0, more, t, left, h) else t == mid && left == more;
    RunKeeps(w, s, script, mid);
    assert Rest(fires, 1) == more;
    var a := WentAsk(w, s, x, fires, mid);
    if w.matchAll {
      var h :| Kidded(w, mid, x, 0, more, t, left, h);
      var b := KidsWent(w, mid, x, 0, more, t, left, h);
      WentOn(w, s, [x], fires, mid, more, true, a, Asked(w, Kids(mid.forest, x)), kids, t, left, h, b);
      starts := a + b;
    } else {
      WentStop(w, s, [x], fires, mid, more, a, kids);
      starts := a;
    }
  }

  /** The `i`-th child tried, and then the others. */
  lemma {:induction false} KidSplit(w: Walk, s: State, x: int, i: nat, next: nat, fires: Fires, t: State, left: Fires,
                                    hit: bool)
    returns (child: int, mid: State, l: Fires, h: bool, h': bool)
    requires x in Ids(s.forest) && Kidded(w, s, x, i, fires, t, left, hit)
    requires i < |Tops(Kids(s.forest, x))| && next == i + 1
    ensures child == Tops(Kids(s.forest, x))[i] && child in Ids(s.forest)
    ensures Size(Sub(s.forest, child)) < Size(Sub(s.forest, x))
    ensures Matched(w, s, child, fires, mid, l, h) && Progress(s, fires, mid, l) && x in Ids(mid.forest)
    ensures if h && !w.matchAll then t == mid && left == l && hit
            else Kidded(w, mid, x, next, l, t, left, h') && hit == (h || h')
  {
    child := Tops(Kids(s.forest, x))[i];
    mid, l, h :| Matched(w, s, child, fires, mid, l, h) && Progress(s, fires, mid, l) && x in Ids(mid.forest)
                 && if h && !w.matchAll then t == mid && left == l && hit
                    else exists h' :: Kidded(w, mid, x, next, l, t, left, h') && hit == (h || h');
    h' := false;
    if !(h && !w.matchAll) { h' :| Kidded(w, mid, x, next, l, t, left, h') && hit == (h || h'); }
  }

  lemma {:induction false} KidsWent(w: Walk, s: State, x: int, i: nat, fires: Fires, t: State, left: Fires, hit: bool)
    returns (starts: seq<Start>)
    requires Inv(s) && s.depth > 0 && x in Ids(s.forest) && Kidded(w, s, x, i, fires, t, left, hit)
    ensures Went(w, s, Asked(w, From(Kids(s.forest, x), i)), fires, t, left, hit, starts)
    decreases Burden(fires), 1, Size(Sub(s.forest, x)), 0, |Tops(Kids(s.forest, x))| - i
  {
    var next := i + 1;
    if i >= |Tops(Kids(s.forest, x))| {
      FromEnd(Kids(s.forest, x), i);
      WentNowhere(w, s, fires);
      starts := [];
    } else {
      var child, mid, l, h, h' := KidSplit(w, s, x, i, next, fires, t, left, hit);
      AskedKids(w, s.forest, x, i);
      MatchKeeps(w, s, child, fires, mid, l, h);
      var own, others := Asked(w, Sub(s.forest, child)), Asked(w, From(Kids(s.forest, x), next));
      var a := MatchedWent(w, s, child, fires, mid, l, h);
      if h && !w.matchAll {
        WentStop(w, s, own, fires, mid, l, a, others);
        starts := a;
      } else {
        var b := KidsWent(w, mid, x, next, l, t, left, h');
        WentOn(w, s, own, fires, mid, l, h, a, Asked(w, From(Kids(mid.forest, x), next)), others, t, left, h', b);
        starts := a + b;
      }
    }
  }

  // ---------------------------------------------------------------- the roots

  /** The nodes asked in these trees, one after another. */
  function AskedIn(w: Walk, f: Forest<Node>, roots: seq<int>): seq<int>
    decreases |roots|
  {
    if roots == [] then [] else Asked(w, Sub(f, roots[0])) + AskedIn(w, f, roots[1..])
  }

  lemma {:induction false} AskedRoots(w: Walk, f: Forest<Node>, i: nat)
    requires Wf(f) && i <= |Tops(f)|
    ensures AskedIn(w, f, Tops(f)[i..]) == Asked(w, From(f, i))
    decreases |Tops(f)| - i
  {
    if i == |Tops(f)| {
      FromEnd(f, i);
    } else {
      AskedFrom(w, f, i);
      AskedRoots(w, f, i + 1);
      assert Tops(f)[i..][0] == Tops(f)[i] && Tops(f)[i..][1..] == Tops(f)[i + 1..];
    }
  }

  /** The list of roots that the walk follows. */
  function Following(w: Walk, listed: seq<int>, f: Forest<Node>): seq<int> {
    if w.copies then listed else Tops(f)
  }

  /** A root is not passed over. */
  predicate Tried(w: Walk, node: Node) {
    node.active || (w.copies && node.wanted)
  }

  /** The `i`-th root tried or passed over, and then the others. */
  lemma {:induction false} RootSplit(w: Walk, s: State, listed: seq<int>, i: nat, next: nat, fires: Fires, t: State,
                                     hit: bool)
    returns (x: int, mid: State, l: Fires, h: bool, h': bool)
    requires Walked(w, s, listed, i, fires, t, hit) && i < |Following(w, listed, s.forest)| && next == i + 1
    ensures x == Following(w, listed, s.forest)[i] && x in Ids(s.forest) && Progress(s, fires, mid, l)
    ensures if Tried(w, ItemOf(s.forest, x)) then Matched(w, s, x, fires, mid, l, h) else mid == s && l == fires && !h
    ensures if h && !w.matchAll then t == mid && hit
            else Walked(w, mid, listed, next, l, t, h') && hit == (h || h')
  {
    x := Following(w, listed, s.forest)[i];
    if Tried(w, ItemOf(s.forest, x)) {
      mid, l, h :| Matched(w, s, x, fires, mid, l, h) && Progress(s, fires, mid, l)
                   && if h && !w.matchAll then t == mid && hit
                      else exists h' :: Walked(w, mid, listed, next, l, t, h') && hit == (h || h');
      h' := false;
      if !(h && !w.matchAll) { h' :| Walked(w, mid, listed, next, l, t, h') && hit == (h || h'); }
    } else {
      mid, l, h, h' := s, fires, false, hit;
    }
  }

  lemma {:induction false} RootWent(w: Walk, s: State, x: int, fires: Fires, mid: State, l: Fires, h: bool)
    returns (starts: seq<Start>)
    requires Inv(s) && s.depth > 0 && x in Ids(s.forest)
    requires if Tried(w, ItemOf(s.forest, x)) then Matched(w, s, x, fires, mid, l, h) else mid == s && l == fires && !h
    ensures Went(w, s, Asked(w, Sub(s.forest, x)), fires, mid, l, h, starts) && Kept(s, mid)
  {
    AskedTree(w, s.forest, x);
    if Tried(w, ItemOf(s.forest, x)) {
      MatchKeeps(w, s, x, fires, mid, l, h);
      starts := MatchedWent(w, s, x, fires, mid, l, h);
    } else {
      WentNowhere(w, s, fires);
      starts := [];
    }
  }

  lemma {:induction false} RootsWent(w: Walk, s: State, listed: seq<int>, i: nat, fires: Fires, t: State, hit: bool)
    returns (starts: seq<Start>, left: Fires)
    requires Inv(s) && s.depth > 0 && Walked(w, s, listed, i, fires, t, hit)
    ensures var list := Following(w, listed, s.forest);
            Went(w, s, AskedIn(w, s.forest, list[if i < |list| then i else |list|..]), fires, t, left, hit, starts)
    decreases Burden(fires), |Following(w, listed, s.forest)| - i
  {
    var list, next := Following(w, listed, s.forest), i + 1;
    if i >= |list| {
      WentNowhere(w, s, fires);
      starts, left := [], fires;
    } else {
      var x, mid, l, h, h' := RootSplit(w, s, listed, i, next, fires, t, hit);
      assert list[i..][0] == x && list[i..][1..] == list[next..];
      var own, others := Asked(w, Sub(s.forest, x)), AskedIn(w, s.forest, list[next..]);
      var a := RootWent(w, s, x, fires, mid, l, h);
      if h && !w.matchAll {
        WentStop(w, s, own, fires, mid, l, a, others);
        starts, left := a, l;
      } else {
        var b;
        b, left := RootsWent(w, mid, listed, next, l, t, h');
        var list' := Following(w, listed, mid.forest);
        WentOn(w, s, own, fires, mid, l, h, a,
               AskedIn(w, mid.forest, list'[if next < |list'| then next else |list'|..]), others, t, left, h', b);
        starts := a + b;
      }
    }
  }

  // ---------------------------------------------------------------- a whole pass

  /**
    In every pass the unit changes only by scripts that are started one after another,
    each for a node that is there and switched on.  They are the scripts of the outcomes
    used up, in order; the nodes are those asked in pre-order, up to and with the first
    script that changes the forest; if one match is enough, no second script is started;
    and the pass reports a match if and only if it started a script.
  */
  lemma {:induction false} PassRuns(w: Walk, s: State, fires: Fires, t: State, hit: bool)
    returns (starts: seq<Start>, mid: State, left: Fires)
    requires Inv(s) && Processed(w, s, fires, t, hit)
    ensures RanEach(w, s.(depth := s.depth + 1), starts, mid) && Left(s.depth, mid, t)
    ensures Used(fires, left, Scripts(starts)) && (hit <==> starts != []) && (!w.matchAll ==> |starts| <= 1)
    ensures Agrees(s.forest, starts, Served(w, Asked(w, s.forest), fires))
  {
    var start := s.(depth := s.depth + 1);
    mid :| Walked(w, start, Tops(s.forest), 0, fires, mid, hit) && Left(s.depth, mid, t);
    starts, left := RootsWent(w, start, Tops(s.forest), 0, fires, mid, hit);
    AskedRoots(w, s.forest, 0);
    assert Tops(s.forest)[0..] == Tops(s.forest) && From(s.forest, 0) == s.forest;
  }

  /** As long as no script changes the forest, exactly the scripts that are due are started, for the nodes due them. */
  lemma {:induction false} SteadyPass(w: Walk, s: State, fires: Fires, t: State, hit: bool)
    returns (starts: seq<Start>)
    requires Inv(s) && Processed(w, s, fires, t, hit)
    ensures AllSame(s.forest, starts) ==> Owed(starts) == Served(w, Asked(w, s.forest), fires)
    ensures exists mid :: RanEach(w, s.(depth := s.depth + 1), starts, mid) && Left(s.depth, mid, t)
  {
    var mid, left;
    starts, mid, left := PassRuns(w, s, fires, t, hit);
    AgreesAll(s.forest, starts, Served(w, Asked(w, s.forest), fires));
  }

  function Owed(starts: seq<Start>): seq<(int, Acts)> {
    if starts == [] then [] else [(starts[0].node, starts[0].script)] + Owed(starts[1..])
  }

  lemma {:induction false} AgreesAll(f: Forest<Node>, starts: seq<Start>, served: seq<(int, Acts)>)
    requires Agrees(f, starts, served)
    ensures AllSame(f, starts) ==> Owed(starts) == served
    decreases |starts|
  {
    if starts != [] && AllSame(f, starts) {
      assert starts[0].over.forest == f;
      forall k | 0 <= k < |starts[1..]| ensures starts[1..][k].over.forest == f {
        assert starts[1..][k] == starts[k + 1];
      }
      AgreesAll(f, starts[1..], served[1..]);
      assert served == [served[0]] + served[1..];
    }
  }

  // ---------------------------------------------------------------- passes that there are

  /** Nothing matches where no outcome is left, or nobody is asked. */
  lemma {:induction false} QuietMatched(w: Walk, s: State, x: int, fires: Fires)
    requires Wf(s.forest) && x in Ids(s.forest) && (fires.NoMore? || Asked(w, Sub(s.forest, x)) == [])
    ensures Matched(w, s, x, fires, s, fires, false)
    decreases Size(Sub(s.forest, x)), 1, 0
  {
    AskedTree(w, s.forest, x);
    if Enters(w, ItemOf(s.forest, x)) {
      QuietKids(w, s, x, 0, fires);
    }
  }

  lemma {:induction false} QuietKids(w: Walk, s: State, x: int, i: nat, fires: Fires)
    requires Wf(s.forest) && x in Ids(s.forest) && (fires.NoMore? || Asked(w, From(Kids(s.forest, x), i)) == [])
    ensures Kidded(w, s, x, i, fires, s, fires, false)
    decreases Size(Sub(s.forest, x)), 0, |Tops(Kids(s.forest, x))| - i
  {
    if i < |Tops(Kids(s.forest, x))| {
      ChildLive(s.forest, x, i);
      AskedKids(w, s.forest, x, i);
      QuietMatched(w, s, Tops(Kids(s.forest, x))[i], fires);
      QuietKids(w, s, x, i + 1, fires);
      KidStep(w, s, x, i, i + 1, fires, s, fires, false, s, fires, false);
    }
  }

  lemma {:induction false} QuietWalk(w: Walk, s: State, listed: seq<int>, i: nat, fires: Fires)
    requires Wf(s.forest) && forall x :: x in Following(w, listed, s.forest) ==> x in Ids(s.forest)
    requires i <= |Following(w, listed, s.forest)|
    requires fires.NoMore? || AskedIn(w, s.forest, Following(w, listed, s.forest)[i..]) == []
    ensures Walked(w, s, listed, i, fires, s, false)
    decreases |Following(w, listed, s.forest)| - i
  {
    var list := Following(w, listed, s.forest);
    if i < |list| {
      var x, next := list[i], i + 1;
      assert x in list && list[i..][0] == x && list[i..][1..] == list[next..];
      QuietMatched(w, s, x, fires);
      QuietWalk(w, s, listed, next, fires);
      assert RootTried(w, s, listed, i, fires, s, fires, false);
      RootStep(w, s, listed, i, next, fires, s, fires, false, s, false);
    }
  }

  /** The only match left goes to the first node asked, and its script runs. */
  lemma {:induction false} HitMatched(w: Walk, s: State, x: int, script: Acts, mid: State)
    requires Inv(s) && s.depth > 0 && x in Ids(s.forest) && Asked(w, Sub(s.forest, x)) != []
    requires Ran(w, s, script, mid)
    ensures Matched(w, s, x, Hit(script, NoMore), mid, NoMore, true)
    decreases Size(Sub(s.forest, x)), 1, 0
  {
    RunKeeps(w, s, script, mid);
    AskedTree(w, s.forest, x);
    if Asks(w, ItemOf(s.forest, x)) {
      QuietKids(w, mid, x, 0, NoMore);
    } else {
      HitKids(w, s, x, 0, script, mid);
    }
  }

  /** A child that matches ends the walk, or is followed by children that do not match. */
  lemma {:induction false} KidHit(w: Walk, s: State, x: int, i: nat, next: nat, fires: Fires, mid: State, l: Fires)
    requires x in Ids(s.forest) && KidTried(w, s, x, i, fires, mid, l, true) && next == i + 1
    requires Kidded(w, mid, x, next, l, mid, l, false)
    ensures Kidded(w, s, x, i, fires, mid, l, true)
  {
    if w.matchAll { KidStep(w, s, x, i, next, fires, mid, l, true, mid, l, false); }
  }

  lemma {:induction false} HitKids(w: Walk, s: State, x: int, i: nat, script: Acts, mid: State)
    requires Inv(s) && s.depth > 0 && x in Ids(s.forest) && Asked(w, From(Kids(s.forest, x), i)) != []
    requires Ran(w, s, script, mid)
    ensures Kidded(w, s, x, i, Hit(script, NoMore), mid, NoMore, true)
    decreases Size(Sub(s.forest, x)), 0, |Tops(Kids(s.forest, x))| - i
  {
    RunKeeps(w, s, script, mid);
    if i >= |Tops(Kids(s.forest, x))| {
      FromEnd(Kids(s.forest, x), i);
      assert false;
    } else {
      var child, fires := Tops(Kids(s.forest, x))[i], Hit(script, NoMore);
      ChildLive(s.forest, x, i);
      AskedKids(w, s.forest, x, i);
      if Asked(w, Sub(s.forest, child)) != [] {
        HitMatched(w, s, child, script, mid);
        QuietKids(w, mid, x, i + 1, NoMore);
        KidHit(w, s, x, i, i + 1, fires, mid, NoMore);
      } else {
        QuietMatched(w, s, child, fires);
        HitKids(w, s, x, i + 1, script, mid);
        KidStep(w, s, x, i, i + 1, fires, s, fires, false, mid, NoMore, true);
      }
    }
  }

  /** The roots that the walk follows are live, and stay so while a script runs. */
  lemma {:induction false} FollowingLive(w: Walk, s: State, listed: seq<int>, mid: State)
    requires forall x :: x in Following(w, listed, s.forest) ==> x in Ids(s.forest)
    requires Ids(s.forest) <= Ids(mid.forest)
    ensures forall x :: x in Following(w, listed, mid.forest) ==> x in Ids(mid.forest)
  {
    if !w.copies {
      forall x | x in Tops(mid.forest) ensures x in Ids(mid.forest) {
        var k :| 0 <= k < |Tops(mid.forest)| && Tops(mid.forest)[k] == x;
        RootLive(mid.forest, k);
      }
    }
  }

  lemma {:induction false} AfterHit(w: Walk, s: State, listed: seq<int>, next: nat, script: Acts, mid: State)
    requires Inv(s) && s.depth > 0 && Ran(w, s, script, mid)
    requires forall x :: x in Following(w, listed, s.forest) ==> x in Ids(s.forest)
    ensures Walked(w, mid, listed, next, NoMore, mid, false)
  {
    RunKeeps(w, s, script, mid);
    FollowingLive(w, s, listed, mid);
    if next <= |Following(w, listed, mid.forest)| { QuietWalk(w, mid, listed, next, NoMore); }
  }

  lemma {:induction false} HitWalk(w: Walk, s: State, listed: seq<int>, i: nat, script: Acts, mid: State)
    requires Inv(s) && s.depth > 0 && i <= |Following(w, listed, s.forest)| && Ran(w, s, script, mid)
    requires forall x :: x in Following(w, listed, s.forest) ==> x in Ids(s.forest)
    requires AskedIn(w, s.forest, Following(w, listed, s.forest)[i..]) != []
    ensures Walked(w, s, listed, i, Hit(script, NoMore), mid, true)
    decreases |Following(w, listed, s.forest)| - i
  {
    var list, next, fires := Following(w, listed, s.forest), i + 1, Hit(script, NoMore);
    var x := list[i];
    assert x in list && list[i..][0] == x && list[i..][1..] == list[next..];
    AskedTree(w, s.forest, x);
    if Asked(w, Sub(s.forest, x)) != [] {
      HitMatched(w, s, x, script, mid);
      assert RootTried(w, s, listed, i, fires, mid, NoMore, true);
      if w.matchAll {
        AfterHit(w, s, listed, next, script, mid);
        RootStep(w, s, listed, i, next, fires, mid, NoMore, true, mid, false);
      }
    } else {
      QuietMatched(w, s, x, fires);
      HitWalk(w, s, listed, next, script, mid);
      assert RootTried(w, s, listed, i, fires, s, fires, false);
      RootStep(w, s, listed, i, next, fires, s, fires, false, mid, true);
    }
  }

  lemma {:induction false} RootsLive(f: Forest<Node>)
    ensures forall x :: x in Tops(f) ==> x in Ids(f)
  {
    forall x | x in Tops(f) ensures x in Ids(f) {
      var k :| 0 <= k < |Tops(f)| && Tops(f)[k] == x;
      RootLive(f, k);
    }
  }

  /** The script ran while the pass was under way, and then the pass was left. */
  ghost predicate RanInside(w: Walk, s: State, script: Acts, t: State) {
    exists mid :: Ran(w, s.(depth := s.depth + 1), script, mid) && Left(s.depth, mid, t)
  }

  lemma {:induction false} OneMatchRuns(w: Walk, s: State, script: Acts, t: State, hit: bool)
    requires Inv(s) && Asked(w, s.forest) != [] && Processed(w, s, Hit(script, NoMore), t, hit)
    ensures hit && RanInside(w, s, script, t)
  {
    var start, fires := s.(depth := s.depth + 1), Hit(script, NoMore);
    var starts, mid, left := PassRuns(w, s, fires, t, hit);
    assert Served(w, Asked(w, s.forest), fires) != [];
    OnlyOne(w, start, starts, mid, fires, left, script);
  }

  lemma {:induction false} RunMatches(w: Walk, s: State, script: Acts, t: State)
    requires Inv(s) && Asked(w, s.forest) != [] && RanInside(w, s, script, t)
    ensures Processed(w, s, Hit(script, NoMore), t, true)
  {
    var start := s.(depth := s.depth + 1);
    var mid :| Ran(w, start, script, mid) && Left(s.depth, mid, t);
    RootsLive(s.forest);
    AskedRoots(w, s.forest, 0);
    assert Tops(s.forest)[0..] == Tops(s.forest) && From(s.forest, 0) == s.forest;
    HitWalk(w, start, Tops(s.forest), 0, script, mid);
  }

  /**
    Where somebody is asked, a pass in which one node matches is exactly a run of that
    node's script, with the cleanup after it if the pass is the outermost.
  */
  lemma {:induction false} OneMatch(w: Walk, s: State, script: Acts, t: State, hit: bool)
    requires Inv(s) && Asked(w, s.forest) != []
    ensures Processed(w, s, Hit(script, NoMore), t, hit) <==> hit && RanInside(w, s, script, t)
  {
    if Processed(w, s, Hit(script, NoMore), t, hit) { OneMatchRuns(w, s, script, t, hit); }
    if hit && RanInside(w, s, script, t) { RunMatches(w, s, script, t); }
  }

  lemma {:induction false} OnlyOne(w: Walk, s: State, starts: seq<Start>, mid: State, fires: Fires, left: Fires,
                                   script: Acts)
    requires RanEach(w, s, starts, mid) && Used(fires, left, Scripts(starts)) && fires == Hit(script, NoMore)
    requires starts != []
    ensures Ran(w, s, script, mid)
  {
    var n: nat :| left == Rest(fires, n) && Scripts(starts) == Hits(fires, n);
    ScriptsLength(starts);
    if n > 0 {
      assert Hits(NoMore, n - 1) == [];
      assert Hits(fires, n) == [script] + [];
      assert Scripts(starts)[0] == starts[0].script == script;
    }
    assert starts[1..] == [];
  }

  /** A unit all of whose nodes are switched off does nothing in a pass but the cleanup. */
  lemma {:induction false} NobodyAsked(w: Walk, s: State, fires: Fires, t: State, hit: bool)
    requires Inv(s) && Asked(w, s.forest) == []
    ensures Processed(w, s, fires, t, hit) <==> !hit && Left(s.depth, s.(depth := s.depth + 1), t)
  {
    var start := s.(depth := s.depth + 1);
    if Processed(w, s, fires, t, hit) {
      var starts, mid, left := PassRuns(w, s, fires, t, hit);
      assert Served(w, Asked(w, s.forest), fires) == [];
    }
    RootsLive(s.forest);
    AskedRoots(w, s.forest, 0);
    assert Tops(s.forest)[0..] == Tops(s.forest) && From(s.forest, 0) == s.forest;
    QuietWalk(w, start, Tops(s.forest), 0, fires);
  }

  // ---------------------------------------------------------------- what a script does

  /** What one thing that a script does comes to. */
  ghost predicate Does(w: Walk, s: State, a: Act, t: State) {
    match a
    case Uninstall(package) =>
      exists list :: if s.depth > 0 then DefersPackage(s, package, t, list) else FreesPackage(s, package, t, list)
    case KillNamed(name) => exists r :: KillsFirst(s, name, t, r)
    case Register(parent, node) =>
      if parent == 0 || Attachable(s.forest, s.queue, parent) then NewLast(s, t, parent, node) else t == s
    case Switch(item, active, wanted) => SetsSwitches(s, item, active, wanted, t)
    case Process(fires) => if s.lazy then t == s else Passes(w, s, fires, t)
  }

  /** A pass: the scripts that were started, one after another, and then the cleanup if it was the outermost. */
  ghost predicate Passes(w: Walk, s: State, fires: Fires, t: State) {
    exists starts, mid ::
      && RanEach(w, s.(depth := s.depth + 1), starts, mid) && Left(s.depth, mid, t)
      && (!w.matchAll ==> |starts| <= 1)
      && Agrees(s.forest, starts, Served(w, Asked(w, s.forest), fires))
  }

  lemma {:induction false} ActDone(w: Walk, s: State, a: Act, t: State)
    requires Inv(s) && Acted(w, s, a, t)
    ensures Does(w, s, a, t)
  {
    match a
    case Uninstall(package) =>
      if s.depth > 0 {
        var list := UninstallDeferred(s, package, t);
      } else {
        var list := UninstallAtOnce(s, package, t);
      }
    case KillNamed(name) => var r := KillDone(s, name);
    case Register(parent, node) => RegisterDone(s, parent, node);
    case Switch(item, active, wanted) => SwitchDone(s, item, active, wanted);
    case Process(fires) =>
      if !s.lazy {
        var hit :| Processed(w, s, fires, t, hit);
        var starts, mid, left := PassRuns(w, s, fires, t, hit);
      }
  }

  function ActsOf(script: Acts): seq<Act> {
    if script.Done? then [] else [script.first] + ActsOf(script.rest)
  }

  /** These states lie between the acts of a script. */
  ghost predicate Steps(w: Walk, acts: seq<Act>, states: seq<State>) {
    |states| == |acts| + 1 && forall i :: 0 <= i < |acts| ==> Does(w, states[i], acts[i], states[i + 1])
  }

  /** A script does everything it says, in order, and nothing else. */
  lemma {:induction false} ScriptDone(w: Walk, s: State, script: Acts, t: State) returns (states: seq<State>)
    requires Inv(s) && Ran(w, s, script, t)
    ensures Steps(w, ActsOf(script), states) && states[0] == s && states[|states| - 1] == t
    decreases script
  {
    if script.Done? {
      states := [s];
    } else {
      var mid :| Acted(w, s, script.first, mid) && Ran(w, mid, script.rest, t);
      ActDone(w, s, script.first, mid);
      ActKeeps(w, s, script.first, mid);
      var later := ScriptDone(w, mid, script.rest, t);
      states := [s] + later;
      forall i | 0 <= i < |ActsOf(script)| ensures Does(w, states[i], ActsOf(script)[i], states[i + 1]) {
        if i > 0 { assert Does(w, later[i - 1], ActsOf(script.rest)[i - 1], later[i]); }
      }
    }
  }
}
