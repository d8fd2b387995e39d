/**
  Where following the versions stops: the stack renames ids only after a whole
  macro has been redone, and only those its first command rebuilt.  Each limit is
  stated as the exact condition under which it does no harm.
*/
module EditorLimits {
  import opened Common
  import opened Forests
  import opened Renaming
  import opened EditorCommands
  import opened EditorHistory
  import opened EditorRuns

  // ---------------------------------------------------------------- a macro of additions, undone

  /** Additions at the top or under nodes that are there already. */
  predicate Additions(f: Forest<Item>, adds: seq<Action>) {
    forall i :: 0 <= i < |adds| ==>
        adds[i].NewItem? && (adds[i].parent == TOP || adds[i].parent in Ids(f)) && Single(adds[i].tree)
  }

  /** The action is about items whose ids lie within the bound. */
  predicate Within(a: Action, hi: nat)
    requires !a.NewItem?
  {
    a.item <= hi && (a.MoveItem? ==> a.newParent <= hi)
  }

  /** The commands that record the additions, once undone. */
  function UndoneAdds(d: Doc, adds: seq<Action>): (e: Entry)
    requires forall i :: 0 <= i < |adds| ==> adds[i].NewItem? && Single(adds[i].tree)
    ensures |e| == |adds|
    decreases |adds|
  {
    if adds == [] then []
    else
      var a := adds[0];
      var t := Freshen(a.tree, d.maxId);
      [Add(t.id, a.parent, a.pos, Some(Erase(t)), Order(t), [])]
        + UndoneAdds(Doc(Insert(d.forest, a.parent, a.pos, t), d.maxId + Size(t)), adds[1..])
  }

  /** One addition, and how it is undone. */
  lemma {:induction false} AddUndone(d: Doc, a: Action, n: nat)
    requires Version(d.forest, d.maxId) && a.NewItem? && Possible(d, a)
    ensures var (d1, c) := Perform(d, a);
            && Version(d1.forest, d1.maxId) && d.maxId < d1.maxId && Ids(d.forest) <= Ids(d1.forest)
            && UndoCmd(Doc(d1.forest, n), c)
               == (Doc(d.forest, n), c.(snapshot := Some(Erase(Freshen(a.tree, d.maxId))),
                   oldIds := Order(Freshen(a.tree, d.maxId))))
  {
    var t := Freshen(a.tree, d.maxId);
    FreshenBeyond(a.tree, d.maxId, d.forest);
    assert t.id in Ids(t);
    RemoveInsert(d.forest, a.parent, a.pos, t);
    InsertIds(d.forest, a.parent, a.pos, t);
  }

  lemma {:induction false} Assoc(a: Entry, b: Entry, c: Entry)
    ensures (a + b) + c == a + (b + c)
  {
  }

  lemma {:induction false} OneUndone(d: Doc, c: Cmd)
    ensures UndoSeq(d, [c]) == (UndoCmd(d, c).0, [UndoCmd(d, c).1])
  {
    var e := [c];
    var (d1, c1) := UndoCmd(d, c);
    assert e[..|e| - 1] == [] && UndoSeq(d1, []) == (d1, []);
    assert [] + [c1] == [c1];
  }

  lemma {:induction false} OneRedone(d: Doc, c: Cmd)
    ensures RedoSeq(d, [c]) == (RedoCmd(d, c).0, [RedoCmd(d, c).1])
  {
    var e := [c];
    var (d1, c1) := RedoCmd(d, c);
    assert e[1..] == [] && RedoSeq(d1, []) == (d1, []);
    assert [c1] + [] == [c1];
  }

  /** The first command of an entry is undone last. */
  lemma {:induction false} UndoSeqFront(d: Doc, c: Cmd, rest: Entry)
    ensures var (d1, rest') := UndoSeq(d, rest); var (d2, c') := UndoCmd(d1, c);
            UndoSeq(d, [c] + rest) == (d2, [c'] + rest')
    decreases |rest|
  {
    var e, n := [c] + rest, |rest|;
    if rest == [] {
      OneUndone(d, c);
      assert e == [c] && [UndoCmd(d, c).1] + rest == [UndoCmd(d, c).1];
    } else {
      var (d1, last) := UndoCmd(d, rest[n - 1]);
      assert e[..n] == [c] + rest[..n - 1] && e[n] == rest[n - 1];
      UndoSeqFront(d1, c, rest[..n - 1]);
      var (d2, mid) := UndoSeq(d1, rest[..n - 1]);
      Assoc([UndoCmd(d2, c).1], mid, [last]);
    }
  }

  lemma {:induction false} AddsUndone(d: Doc, adds: seq<Action>, n: nat)
    requires Version(d.forest, d.maxId) && Additions(d.forest, adds)
    ensures PerformAll(d, adds).Some?
    ensures var (d1, e) := PerformAll(d, adds).value;
            && Version(d1.forest, d1.maxId) && d.maxId <= d1.maxId && Ids(d.forest) <= Ids(d1.forest)
            && UndoSeq(Doc(d1.forest, n), e) == (Doc(d.forest, n), UndoneAdds(d, adds))
    decreases |adds|
  {
    if adds != [] {
      AddUndone(d, adds[0], n);
      var (d1, c) := Perform(d, adds[0]);
      AddsUndone(d1, adds[1..], n);
      var (d2, rest) := PerformAll(d1, adds[1..]).value;
      UndoSeqFront(Doc(d2.forest, n), c, rest);
    }
  }

  /** The ids listed for the additions: those of the first tree, and beyond them those of later ones. */
  ghost predicate Ranged(e: Entry, lo: nat, hi: nat, i: nat)
    requires i < |e|
  {
    && e[i].Add? && e[i].oldIds != [] && e[i].item == e[i].oldIds[0]
    && (forall x :: x in e[i].oldIds ==> x > lo)
    && if i == 0 then forall x :: x in e[i].oldIds ==> x <= hi else forall x :: x in e[i].oldIds ==> x > hi
  }

  lemma {:induction false} AddsRanged(d: Doc, adds: seq<Action>, i: nat)
    requires Additions(d.forest, adds) && i < |adds|
    ensures Ranged(UndoneAdds(d, adds), d.maxId, d.maxId + Size(adds[0].tree), i)
    ensures UndoneAdds(d, adds)[i].parent == adds[i].parent
    decreases |adds|
  {
    var t := Freshen(adds[0].tree, d.maxId);
    FreshenShape(adds[0].tree, d.maxId);
    FreshenIds(adds[0].tree, d.maxId);
    OrderIds(t);
    assert Order(t)[0] == t.id;
    if i > 0 {
      var d1 := Doc(Insert(d.forest, adds[0].parent, adds[0].pos, t), d.maxId + Size(t));
      InsertKeeps(d.forest, adds[0].parent, adds[0].pos, t);
      AddsRanged(d1, adds[1..], i - 1);
    }
  }

  lemma {:induction false} InsertKeeps(f: Forest<Item>, parent: int, pos: int, t: Forest<Item>)
    requires Single(t)
    ensures Ids(f) <= Ids(Insert(f, parent, pos, t))
  {
    KeepsHere(f, pos, t);
    KeepsUnder(f, parent, pos, t);
  }

  lemma {:induction false} KeepsHere(f: Forest<Item>, pos: int, t: Forest<Item>)
    requires Single(t)
    ensures Ids(f) <= Ids(InsertHere(f, pos, t))
  {
    InsertHereIds(f, pos, t);
  }

  lemma {:induction false} KeepsUnder(f: Forest<Item>, parent: int, pos: int, t: Forest<Item>)
    requires Single(t)
    ensures Ids(f) <= Ids(InsertUnder(f, parent, pos, t))
  {
    if f.Cons? {
      KeepsHere(f.kids, pos, t);
      KeepsUnder(f.kids, parent, pos, t);
      KeepsUnder(f.rest, parent, pos, t);
    }
  }

  /** No two of the additions' listed ids meet. */
  lemma {:induction false} AddsApart(d: Doc, adds: seq<Action>, i: nat, j: nat)
    requires Additions(d.forest, adds) && i < |adds| && j < |adds| && i != j
    ensures UndoneAdds(d, adds)[i].Add? && UndoneAdds(d, adds)[j].Add?
    ensures UndoneAdds(d, adds)[j].item !in UndoneAdds(d, adds)[i].oldIds
    decreases |adds|
  {
    AddsRanged(d, adds, i);
    AddsRanged(d, adds, j);
    if i > 0 && j > 0 {
      var t := Freshen(adds[0].tree, d.maxId);
      InsertKeeps(d.forest, adds[0].parent, adds[0].pos, t);
      AddsApart(Doc(Insert(d.forest, adds[0].parent, adds[0].pos, t), d.maxId + Size(t)), adds[1..], i - 1, j - 1);
    } else {
      assert UndoneAdds(d, adds)[j].item in UndoneAdds(d, adds)[j].oldIds;
    }
  }

  // ---------------------------------------------------------------- redone

  /** Redoing additions brings in nothing but new ids. */
  lemma {:induction false} RedoneIds(d: Doc, e: Entry, x: int)
    requires (forall i :: 0 <= i < |e| ==> e[i].Add?) && x in Ids(RedoSeq(d, e).0.forest)
    ensures x in Ids(d.forest) || x > d.maxId
    decreases |e|
  {
    if e != [] {
      var c := e[0];
      RedoneIds(RedoCmd(d, c).0, e[1..], x);
      if c.snapshot.Some? && Single(c.snapshot.value) {
        var t := Freshen(c.snapshot.value, d.maxId);
        FreshenIds(c.snapshot.value, d.maxId);
        if x in Ids(Insert(d.forest, c.parent, c.pos, t)) { InsertedFrom(d.forest, c.parent, c.pos, t, x); }
      }
    }
  }

  lemma {:induction false} InsertedFrom(f: Forest<Item>, parent: int, pos: int, t: Forest<Item>, x: int)
    requires Single(t) && x in Ids(Insert(f, parent, pos, t))
    ensures x in Ids(f) || x in Ids(t)
  {
    InsertHereIds(f, pos, t);
    FromUnder(f, parent, pos, t, x);
  }

  lemma {:induction false} FromUnder(f: Forest<Item>, parent: int, pos: int, t: Forest<Item>, x: int)
    requires Single(t)
    ensures x in Ids(InsertUnder(f, parent, pos, t)) ==> x in Ids(f) || x in Ids(t)
  {
    if f.Cons? {
      InsertHereIds(f.kids, pos, t);
      FromUnder(f.kids, parent, pos, t, x);
      FromUnder(f.rest, parent, pos, t, x);
    }
  }

  lemma {:induction false} RedoSeqLast(d: Doc, e: Entry, c: Cmd)
    ensures var (d1, e') := RedoSeq(d, e); var (d2, c') := RedoCmd(d1, c);
            RedoSeq(d, e + [c]) == (d2, e' + [c'])
    decreases |e|
  {
    if e == [] {
      OneRedone(d, c);
      assert e + [c] == [c] && e + [RedoCmd(d, c).1] == [RedoCmd(d, c).1];
    } else {
      assert (e + [c])[0] == e[0] && (e + [c])[1..] == e[1..] + [c];
      var (d0, first) := RedoCmd(d, e[0]);
      RedoSeqLast(d0, e[1..], c);
      var (d1, mid) := RedoSeq(d0, e[1..]);
      Assoc([first], mid, [RedoCmd(d1, c).1]);
    }
  }

  /** Recorded changes leave alone what was not listed. */
  lemma {:induction false} ChangesLeave(olds: seq<int>, news: seq<int>, x: int)
    requires x !in olds
    ensures Subst(x, Changes(olds, news)) == x
  {
    if |olds| == |news| && olds != [] {
      assert x !in olds[1..] && x != olds[0];
      ChangesLeave(olds[1..], news[1..], x);
      var head := if olds[0] != news[0] then [(olds[0], news[0])] else [];
      var rest := Changes(olds[1..], news[1..]);
      if head == [] { assert head + rest == rest; } else { assert (head + rest)[1..] == rest; }
    }
  }

  // ---------------------------------------------------------------- the limits

  /** Two versions of a document kept by the editor after one entry. */
  lemma {:induction false} OneEntry(d: Doc, actions: seq<Action>) returns (r: Reference, w: seq<Forest<Item>>)
    requires Version(d.forest, d.maxId) && PerformAll(d, actions).Some? && PerformAll(d, actions).value.1 != []
    ensures var (d1, e) := PerformAll(d, actions).value;
            && Inv(System(d1, [e], 1), r, w) && r.versions == [Erase(d.forest), Erase(d1.forest)] && r.index == 1
  {
    var (s0, r0) := Start(d);
    StartInv(d);
    w := ActInv(s0, r0, [d.forest], actions);
    r := Step(s0, r0, Act(actions)).1;
    var (d1, e) := PerformAll(d, actions).value;
    assert s0.stack[..0] + [e] == [e];
    assert r0.versions[..1] + [Erase(d1.forest)] == [Erase(d.forest), Erase(d1.forest)];
  }

  lemma {:induction false} AddedUndo(d: Doc, adds: seq<Action>, stack: seq<Entry>)
    requires Version(d.forest, d.maxId) && Additions(d.forest, adds)
    ensures PerformAll(d, adds).Some?
    ensures var (d1, e) := PerformAll(d, adds).value;
            EditorCommands.Undo(System(d1, [e] + stack, 1))
                == System(Doc(d.forest, d1.maxId), [UndoneAdds(d, adds)] + stack, 0)
  {
    AddsUndone(d, adds, 0);
    var (d1, e) := PerformAll(d, adds).value;
    AddsUndone(d, adds, d1.maxId);
    assert ([e] + stack)[0 := UndoneAdds(d, adds)] == [UndoneAdds(d, adds)] + stack;
  }

  /** The additions by themselves come back as they were. */
  lemma {:induction false} AddsBack(d: Doc, adds: seq<Action>)
    requires Version(d.forest, d.maxId) && Additions(d.forest, adds) && adds != []
    ensures PerformAll(d, adds).Some?
    ensures var (d1, _) := PerformAll(d, adds).value;
            && d.maxId < d1.maxId && Version(d1.forest, d1.maxId) && Ids(d.forest) <= Ids(d1.forest)
            && Erase(RedoSeq(Doc(d.forest, d1.maxId), UndoneAdds(d, adds)).0.forest) == Erase(d1.forest)
  {
    AddsUndone(d, adds, 0);
    var (d1, e) := PerformAll(d, adds).value;
    AddUndone(d, adds[0], 0);
    AddsUndone(Perform(d, adds[0]).0, adds[1..], 0);
    assert e != [];
    var r, w := OneEntry(d, adds);
    UndoInv(System(d1, [e], 1), r, w);
    AddedUndo(d, adds, []);
    assert [e] + [] == [e] && [UndoneAdds(d, adds)] + [] == [UndoneAdds(d, adds)];
    var s0 := System(Doc(d.forest, d1.maxId), [UndoneAdds(d, adds)], 0);
    AddsSafe(d, adds, [UndoneAdds(d, adds)], d.maxId + Size(adds[0].tree));
    var w1 := RedoInv(s0, r.(index := 0), w);
    InvCurrent(EditorCommands.Redo(s0), r.(index := 1), w1);
  }

  /** Redoing the additions is safe with a stack that refers to nothing beyond the first tree. */
  lemma {:induction false} AddsSafe(d: Doc, adds: seq<Action>, stack: seq<Entry>, hi: nat)
    requires Version(d.forest, d.maxId) && Additions(d.forest, adds) && adds != [] && hi == d.maxId + Size(adds[0].tree)
    requires stack != [] && stack[0] == UndoneAdds(d, adds)
    requires forall m, j, x :: 0 < m < |stack| && 0 <= j < |stack[m]| && x in Mentions(stack[m][j]) ==> x <= hi
    ensures RedoSafe(stack, 0)
  {
    var e := UndoneAdds(d, adds);
    forall i | 0 <= i < |e| && e[i].Add?
      ensures forall j :: 0 <= j < |e| && j != i ==> Avoids(e[j], e[i].oldIds)
      ensures i > 0 ==> forall m :: 0 <= m < |stack| && m != 0 ==> AllAvoid(stack[m], e[i].oldIds)
    {
      AddsRanged(d, adds, i);
      forall j | 0 <= j < |e| && j != i ensures Avoids(e[j], e[i].oldIds) {
        AddsApart(d, adds, i, j);
        AddsRanged(d, adds, j);
        assert adds[j].parent <= d.maxId by { assert adds[j].parent == TOP || adds[j].parent in Ids(d.forest); }
      }
    }
  }

  // ---------------------------------------------------------------- where the item of a later command hangs

  lemma {:induction false} ParentHere(f: Forest<Item>, pos: int, t: Forest<Item>, x: int, above: int)
    requires Single(t) && x in Ids(f) && x !in Ids(t)
    ensures ParentOf(InsertHere(f, pos, t), x, above) == ParentOf(f, x, above)
  {
    if pos > 0 && f.id != x && x !in Ids(f.kids) { ParentHere(f.rest, pos - 1, t, x, above); }
  }

  lemma {:induction false} ParentUnder(f: Forest<Item>, parent: int, pos: int, t: Forest<Item>, x: int, above: int)
    requires Single(t) && x in Ids(f) && x !in Ids(t)
    ensures ParentOf(InsertUnder(f, parent, pos, t), x, above) == ParentOf(f, x, above)
  {
    FromUnder(f.kids, parent, pos, t, x);
    InsertHereIds(f.kids, pos, t);
    KeepsUnder(f.kids, parent, pos, t);
    if f.id != x {
      if x in Ids(f.kids) {
        ParentHere(f.kids, pos, t, x, f.id);
        ParentUnder(f.kids, parent, pos, t, x, f.id);
      } else if f.id != parent {
        ParentUnder(f.rest, parent, pos, t, x, above);
      }
    }
  }

  /** Additions leave every item where it hangs, and bring in ids beyond those in use. */
  lemma {:induction false} AddsKeep(d: Doc, adds: seq<Action>, x: int)
    requires Version(d.forest, d.maxId) && Additions(d.forest, adds)
    ensures PerformAll(d, adds).Some?
    ensures var f := PerformAll(d, adds).value.0.forest;
            if x in Ids(d.forest) then x in Ids(f) && ParentOf(f, x, TOP) == ParentOf(d.forest, x, TOP)
            else x in Ids(f) ==> x > d.maxId
    decreases |adds|
  {
    if adds != [] {
      var (d1, _) := Perform(d, adds[0]);
      AddUndone(d, adds[0], 0);
      AddsKeep(d1, adds[1..], x);
      PerformLinks(d, adds[0]);
      var t := Freshen(adds[0].tree, d.maxId);
      if x in Ids(d.forest) {
        FreshenBeyond(adds[0].tree, d.maxId, d.forest);
        ParentHere(d.forest, adds[0].pos, t, x, TOP);
        ParentUnder(d.forest, adds[0].parent, adds[0].pos, t, x, TOP);
      }
    }
  }

  /** What a command on an item of an earlier document stores. */
  lemma {:induction false} StoresWithin(d: Doc, adds: seq<Action>, a: Action)
    requires Version(d.forest, d.maxId) && Additions(d.forest, adds) && PerformAll(d, adds).Some?
    requires !a.NewItem? && Possible(PerformAll(d, adds).value.0, a) && Within(a, d.maxId)
    ensures forall y :: y in Mentions(Perform(PerformAll(d, adds).value.0, a).1) ==> y <= d.maxId
  {
    AddsKeep(d, adds, a.item);
    ParentIn(d.forest, a.item, TOP);
    var p := ParentOf(d.forest, a.item, TOP);
    assert p == TOP || p in Ids(d.forest);
  }

  lemma {:induction false} OneAction(d: Doc, a: Action)
    requires Possible(d, a)
    ensures PerformAll(d, [a]) == Some((Perform(d, a).0, [Perform(d, a).1]))
  {
    var (d1, c) := Perform(d, a);
    assert [a][1..] == [] && PerformAll(d1, []) == Some((d1, [])) && [c] + [] == [c];
  }

  lemma {:induction false} PerformAllLast(d: Doc, actions: seq<Action>, a: Action)
    requires PerformAll(d, actions).Some? && Possible(PerformAll(d, actions).value.0, a)
    ensures var (d1, e) := PerformAll(d, actions).value; var (d2, c) := Perform(d1, a);
            PerformAll(d, actions + [a]) == Some((d2, e + [c]))
    decreases |actions|
  {
    if actions == [] {
      OneAction(d, a);
      assert actions + [a] == [a] && [] + [Perform(d, a).1] == [Perform(d, a).1];
    } else {
      var (d0, first) := Perform(d, actions[0]);
      assert (actions + [a])[0] == actions[0] && (actions + [a])[1..] == actions[1..] + [a];
      PerformAllLast(d0, actions[1..], a);
      var (d1, e) := PerformAll(d0, actions[1..]).value;
      Assoc([first], e, [Perform(d1, a).1]);
    }
  }

  /** A command that adds nothing, undone at once; and redone where its item is gone. */
  lemma {:induction false} PlainUndo(d: Doc, a: Action)
    requires Version(d.forest, d.maxId) && !a.NewItem? && Possible(d, a)
    ensures var (d1, c) := Perform(d, a);
            && UndoCmd(d1, c) == (d, c) && d1.maxId == d.maxId && !c.Add? && c.item == a.item &&
                Version(d1.forest, d1.maxId)
  {
    PerformLinks(d, a);
    var (d1, c) := Perform(d, a);
    UndoLink(d.forest, c, d1.forest, d.maxId);
  }

  lemma {:induction false} Stale(d: Doc, c: Cmd)
    requires !c.Add? && c.item !in Ids(d.forest)
    ensures RedoCmd(d, c) == (d, c)
  {
  }

  /** Ids handed out since are not in the document that redoing the additions gives. */
  lemma {:induction false} GoneFrom(d: Doc, adds: seq<Action>, n: nat, x: int)
    requires Version(d.forest, d.maxId) && Additions(d.forest, adds) && d.maxId < x <= n
    ensures x !in Ids(RedoSeq(Doc(d.forest, n), UndoneAdds(d, adds)).0.forest)
  {
    if x in Ids(RedoSeq(Doc(d.forest, n), UndoneAdds(d, adds)).0.forest) {
      forall i | 0 <= i < |adds| ensures UndoneAdds(d, adds)[i].Add? { AddsRanged(d, adds, i); }
      RedoneIds(Doc(d.forest, n), UndoneAdds(d, adds), x);
    }
  }

  // ---------------------------------------------------------------- a move into a tree that is gone

  lemma {:induction false} TopsErased(f: Forest<Item>)
    ensures |Tops(Erase(f))| == |Tops(f)|
  {
    if f.Cons? { TopsErased(f.rest); }
  }

  lemma {:induction false} CountHere(f: Forest<Item>, pos: int, t: Forest<Item>)
    requires Single(t)
    ensures |Tops(InsertHere(f, pos, t))| == |Tops(f)| + 1
  {
    if f.Cons? && pos > 0 { CountHere(f.rest, pos - 1, t); }
  }

  lemma {:induction false} CountUnder(f: Forest<Item>, parent: int, pos: int, t: Forest<Item>)
    requires Single(t)
    ensures |Tops(InsertUnder(f, parent, pos, t))| == |Tops(f)|
  {
    if f.Cons? { CountUnder(f.rest, parent, pos, t); }
  }

  lemma {:induction false} RemovedFrom(f: Forest<Item>, x: int, y: int)
    ensures y in Ids(Remove(f, x)) ==> y in Ids(f)
  {
    if f.Cons? {
      RemovedFrom(f.kids, x, y);
      RemovedFrom(f.rest, x, y);
    }
  }

  /** Moving under a node that is gone is moving to the top. */
  lemma {:induction false} UnknownIsTop(f: Forest<Item>, x: int, parent: int, pos: nat)
    requires TOP !in Ids(f) && parent !in Ids(f)
    ensures ReParent(f, x, parent, pos) == ReParent(f, x, TOP, pos)
  {
    RemovedFrom(f, x, parent);
    RemovedFrom(f, x, TOP);
  }

  /** Under another node and at the top an item is not in the same place. */
  lemma {:induction false} UnderIsNotTop(f: Forest<Item>, x: int, parent: int, pos: nat)
    requires Wf(f) && x in Ids(f) && TOP !in Ids(f) && parent in Ids(Remove(f, x))
    ensures Erase(ReParent(f, x, parent, pos)) != Erase(ReParent(f, x, TOP, pos))
  {
    var g, t := Remove(f, x), Sub(f, x);
    RemovedFrom(f, x, TOP);
    CountHere(g, pos, t);
    CountUnder(g, parent, pos, t);
    TopsErased(Insert(g, parent, pos, t));
    TopsErased(Insert(g, TOP, pos, t));
  }

  lemma {:induction false} NoTop(d: Doc, adds: seq<Action>, n: nat)
    requires Version(d.forest, d.maxId) && Additions(d.forest, adds)
    ensures TOP !in Ids(RedoSeq(Doc(d.forest, n), UndoneAdds(d, adds)).0.forest)
  {
    if TOP in Ids(RedoSeq(Doc(d.forest, n), UndoneAdds(d, adds)).0.forest) {
      forall i | 0 <= i < |adds| ensures UndoneAdds(d, adds)[i].Add? { AddsRanged(d, adds, i); }
      RedoneIds(Doc(d.forest, n), UndoneAdds(d, adds), TOP);
    }
  }

  // ---------------------------------------------------------------- a command in the macro itself

  lemma {:induction false} MacroUndo(d: Doc, adds: seq<Action>, a: Action)
    requires Version(d.forest, d.maxId) && Additions(d.forest, adds) && PerformAll(d, adds).Some?
    requires !a.NewItem? && Possible(PerformAll(d, adds).value.0, a)
    ensures var (d1, e) := PerformAll(d, adds).value; var (d2, c) := Perform(d1, a);
            EditorCommands.Undo(System(d2, [e + [c]], 1))
                == System(Doc(d.forest, d1.maxId), [UndoneAdds(d, adds) + [c]], 0)
  {
    var (d1, e) := PerformAll(d, adds).value;
    var (d2, c) := Perform(d1, a);
    AddsUndone(d, adds, d1.maxId);
    PlainUndo(d1, a);
    assert (e + [c])[..|e|] == e;
    assert [e + [c]][0 := UndoneAdds(d, adds) + [c]] == [UndoneAdds(d, adds) + [c]];
  }

  lemma {:induction false} MacroSafe(d: Doc, adds: seq<Action>, c: Cmd)
    requires Version(d.forest, d.maxId) && Additions(d.forest, adds) && adds != [] && !c.Add?
    requires forall y :: y in Mentions(c) ==> y <= d.maxId
    ensures RedoSafe([UndoneAdds(d, adds) + [c]], 0)
  {
    var u := UndoneAdds(d, adds);
    var e := u + [c];
    AddsSafe(d, adds, [u], d.maxId + Size(adds[0].tree));
    forall i, j | 0 <= i < |e| && e[i].Add? && 0 <= j < |e| && j != i ensures Avoids(e[j], e[i].oldIds) {
      assert e[i] == u[i];
      AddsRanged(d, adds, i);
      if j < |u| { assert [u][0][i].Add? && Avoids(u[j], u[i].oldIds); }
    }
  }

  lemma {:induction false} MacroStale(d: Doc, adds: seq<Action>, a: Action)
    requires Version(d.forest, d.maxId) && Additions(d.forest, adds) && adds != [] && PerformAll(d, adds).Some?
    requires !a.NewItem? && Possible(PerformAll(d, adds).value.0, a) && a.item > d.maxId
    ensures var (d1, e) := PerformAll(d, adds).value; var (d2, c) := Perform(d1, a);
            Erase(EditorCommands.Redo(EditorCommands.Undo(System(d2, [e + [c]], 1))).doc.forest) == Erase(d1.forest)
  {
    var (d1, e) := PerformAll(d, adds).value;
    var (d2, c) := Perform(d1, a);
    AddsBack(d, adds);
    MacroUndo(d, adds, a);
    PlainUndo(d1, a);
    RedoSeqLast(Doc(d.forest, d1.maxId), UndoneAdds(d, adds), c);
    GoneFrom(d, adds, d1.maxId, a.item);
    Stale(RedoSeq(Doc(d.forest, d1.maxId), UndoneAdds(d, adds)).0, c);
  }

  lemma {:induction false} MacroFollows(d: Doc, adds: seq<Action>, a: Action)
    requires Version(d.forest, d.maxId) && Additions(d.forest, adds) && adds != [] && PerformAll(d, adds).Some?
    requires !a.NewItem? && Possible(PerformAll(d, adds).value.0, a) && Within(a, d.maxId)
    ensures var (d1, e) := PerformAll(d, adds).value; var (d2, c) := Perform(d1, a);
            Erase(EditorCommands.Redo(EditorCommands.Undo(System(d2, [e + [c]], 1))).doc.forest) == Erase(d2.forest)
  {
    var (d1, e) := PerformAll(d, adds).value;
    var (d2, c) := Perform(d1, a);
    PerformAllLast(d, adds, a);
    MacroUndo(d, adds, a);
    AddsBack(d, adds);
    PlainUndo(d1, a);
    StoresWithin(d, adds, a);
    MacroSafe(d, adds, c);
    var r, w := OneEntry(d, adds + [a]);
    UndoInv(System(d2, [e + [c]], 1), r, w);
    var s0 := System(Doc(d.forest, d1.maxId), [UndoneAdds(d, adds) + [c]], 0);
    var w1 := RedoInv(s0, r.(index := 0), w);
    InvCurrent(EditorCommands.Redo(s0), r.(index := 1), w1);
  }

  lemma {:induction false} MacroRedone(d: Doc, adds: seq<Action>, a: Action)
    requires Version(d.forest, d.maxId) && Additions(d.forest, adds) && adds != [] && PerformAll(d, adds).Some?
    requires !a.NewItem? && Possible(PerformAll(d, adds).value.0, a)
    ensures var (d1, e) := PerformAll(d, adds).value; var (d2, c) := Perform(d1, a);
            EditorCommands.Redo(EditorCommands.Undo(System(d2, [e + [c]], 1))).doc
              == RedoCmd(RedoSeq(Doc(d.forest, d1.maxId), UndoneAdds(d, adds)).0, c).0
  {
    MacroUndo(d, adds, a);
    var (d1, _) := PerformAll(d, adds).value;
    RedoSeqLast(Doc(d.forest, d1.maxId), UndoneAdds(d, adds), Perform(d1, a).1);
  }

  /** An item moved into a tree that the macro added is at the top afterwards. */
  lemma {:induction false} MacroInto(d: Doc, adds: seq<Action>, a: Action)
    requires Version(d.forest, d.maxId) && Additions(d.forest, adds) && adds != [] && PerformAll(d, adds).Some?
    requires a.MoveItem? && Possible(PerformAll(d, adds).value.0, a) && a.item <= d.maxId < a.newParent
    ensures var (d1, e) := PerformAll(d, adds).value; var (d2, c) := Perform(d1, a);
            Erase(EditorCommands.Redo(EditorCommands.Undo(System(d2, [e + [c]], 1))).doc.forest) != Erase(d2.forest)
  {
    var (d1, e) := PerformAll(d, adds).value;
    var top := MoveItem(a.item, TOP, a.newPos);
    AddsUndone(d, adds, 0);
    MacroFollows(d, adds, top);
    MacroRedone(d, adds, top);
    MacroRedone(d, adds, a);
    RemovedFrom(d1.forest, a.item, a.newParent);
    GoneFrom(d, adds, d1.maxId, a.newParent);
    NoTop(d, adds, d1.maxId);
    UnknownIsTop(RedoSeq(Doc(d.forest, d1.maxId), UndoneAdds(d, adds)).0.forest, a.item, a.newParent, a.newPos);
    UnderIsNotTop(d1.forest, a.item, a.newParent, a.newPos);
  }

  /**
    A macro of any number of additions, at any parents, followed by an edit, a
    switch or a move of one item comes back from undo and redo unharmed exactly
    when the last command is about items that were there before the macro, or about
    an added item but changes nothing: it is redone before the stack learns the new ids.
  */
  lemma {:induction false} MacroExact(d: Doc, adds: seq<Action>, a: Action)
    requires Version(d.forest, d.maxId) && Additions(d.forest, adds) && adds != [] && PerformAll(d, adds).Some?
    requires !a.NewItem? && Possible(PerformAll(d, adds).value.0, a)
    ensures var (d1, e) := PerformAll(d, adds).value; var (d2, c) := Perform(d1, a);
            PerformAll(d, adds + [a]) == Some((d2, e + [c])) &&
            (Erase(EditorCommands.Redo(EditorCommands.Undo(System(d2, [e + [c]], 1))).doc.forest) == Erase(d2.forest)
             <==> Within(a, d.maxId) || (a.item > d.maxId && Erase(d2.forest) == Erase(d1.forest)))
  {
    PerformAllLast(d, adds, a);
    if a.item > d.maxId {
      MacroStale(d, adds, a);
    } else if Within(a, d.maxId) {
      MacroFollows(d, adds, a);
    } else {
      MacroInto(d, adds, a);
    }
  }

  // ---------------------------------------------------------------- a command after the macro

  lemma {:induction false} PasteUndo(d: Doc, adds: seq<Action>, a: Action)
    requires Version(d.forest, d.maxId) && Additions(d.forest, adds) && PerformAll(d, adds).Some?
    requires !a.NewItem? && Possible(PerformAll(d, adds).value.0, a)
    ensures var (d1, e) := PerformAll(d, adds).value; var (d2, c) := Perform(d1, a);
            && EditorCommands.Undo(System(d2, [e, [c]], 2)) == System(d1, [e, [c]], 1)
            && EditorCommands.Undo(System(d1, [e, [c]], 1))
                == System(Doc(d.forest, d1.maxId), [UndoneAdds(d, adds), [c]], 0)
  {
    var (d1, e) := PerformAll(d, adds).value;
    var (d2, c) := Perform(d1, a);
    AddsUndone(d, adds, 0);
    PlainUndo(d1, a);
    OneUndone(d2, c);
    assert [e, [c]][1 := [c]] == [e, [c]];
    AddedUndo(d, adds, [[c]]);
    assert [e] + [[c]] == [e, [c]] && [UndoneAdds(d, adds)] + [[c]] == [UndoneAdds(d, adds), [c]];
  }

  /**
    What the first redo leaves: the additions redone, and the later command renamed by the
    first tree's new ids alone.
  */
  lemma {:induction false} FirstRedo(d: Doc, adds: seq<Action>, c: Cmd, n: nat) returns (pairs: seq<(int, int)>)
    requires Version(d.forest, d.maxId) && Additions(d.forest, adds) && adds != [] && !c.Add?
    ensures var s1 := EditorCommands.Redo(System(Doc(d.forest, n), [UndoneAdds(d, adds), [c]], 0));
            && s1.doc == RedoSeq(Doc(d.forest, n), UndoneAdds(d, adds)).0
            && s1.index == 1 && |s1.stack| == 2 && s1.stack[1] == [Renamed(c, pairs)]
    ensures pairs == PickedUp(RedoSeq(Doc(d.forest, n), UndoneAdds(d, adds)).1)
    ensures forall x :: x == TOP || x > d.maxId + Size(adds[0].tree) ==> Subst(x, pairs) == x
  {
    var u, d0 := UndoneAdds(d, adds), Doc(d.forest, n);
    var e5 := RedoSeq(d0, u).1;
    pairs := PickedUp(e5);
    AddsRanged(d, adds, 0);
    EraseFacts(Freshen(adds[0].tree, d.maxId));
    forall x | x == TOP || x > d.maxId + Size(adds[0].tree) ensures Subst(x, pairs) == x {
      ChangesLeave(u[0].oldIds, Order(Freshen(u[0].snapshot.value, n)), x);
    }
    RemapIsRename(c, pairs);
    assert [u, [c]][0 := e5] == [e5, [c]];
    assert RemapEntry([c], pairs) == [Renamed(c, pairs)];
  }

  lemma {:induction false} SecondRedo(s: System, c: Cmd)
    requires s.index == 1 && |s.stack| == 2 && s.stack[1] == [c]
    ensures EditorCommands.Redo(s).doc == RedoCmd(s.doc, c).0
  {
    OneRedone(s.doc, c);
  }

  /** A later command of an item that the stack has lost track of does nothing. */
  lemma {:induction false} PasteStale(d: Doc, adds: seq<Action>, c: Cmd, n: nat)
    requires Version(d.forest, d.maxId) && Additions(d.forest, adds) && adds != []
    requires !c.Add? && d.maxId + Size(adds[0].tree) < c.item <= n
    ensures var s := System(Doc(d.forest, n), [UndoneAdds(d, adds), [c]], 0);
            EditorCommands.Redo(EditorCommands.Redo(s)).doc == RedoSeq(Doc(d.forest, n), UndoneAdds(d, adds)).0
  {
    var pairs := FirstRedo(d, adds, c, n);
    var s1 := EditorCommands.Redo(System(Doc(d.forest, n), [UndoneAdds(d, adds), [c]], 0));
    GoneFrom(d, adds, n, c.item);
    SecondRedo(s1, Renamed(c, pairs));
    Stale(s1.doc, Renamed(c, pairs));
  }

  lemma {:induction false} TwoEntries(d: Doc, adds: seq<Action>, a: Action) returns (r: Reference, w: seq<Forest<Item>>)
    requires Version(d.forest, d.maxId) && Additions(d.forest, adds) && adds != [] && PerformAll(d, adds).Some?
    requires !a.NewItem? && Possible(PerformAll(d, adds).value.0, a)
    ensures var (d1, e) := PerformAll(d, adds).value; var (d2, c) := Perform(d1, a);
            && Inv(System(d2, [e, [c]], 2), r, w) && r.index == 2 && |r.versions| == 3 &&
                r.versions[2] == Erase(d2.forest)
  {
    var (d1, e) := PerformAll(d, adds).value;
    var (d2, c) := Perform(d1, a);
    AddsUndone(d, adds, 0);
    var r1, w1 := OneEntry(d, adds);
    w := ActInv(System(d1, [e], 1), r1, w1, [a]);
    OneAction(d1, a);
    r := Step(System(d1, [e], 1), r1, Act([a])).1;
    assert [e][..1] + [[c]] == [e, [c]];
  }

  lemma {:induction false} PasteFollows(d: Doc, adds: seq<Action>, a: Action)
    requires Version(d.forest, d.maxId) && Additions(d.forest, adds) && adds != [] && PerformAll(d, adds).Some?
    requires !a.NewItem? && Possible(PerformAll(d, adds).value.0, a)
    requires Within(a, d.maxId + Size(adds[0].tree))
    ensures var (d1, e) := PerformAll(d, adds).value; var (d2, c) := Perform(d1, a);
            var s := System(Doc(d.forest, d1.maxId), [UndoneAdds(d, adds), [c]], 0);
            Erase(EditorCommands.Redo(EditorCommands.Redo(s)).doc.forest) == Erase(d2.forest)
  {
    var (d1, e) := PerformAll(d, adds).value;
    var (d2, c) := Perform(d1, a);
    var u := UndoneAdds(d, adds);
    PasteUndo(d, adds, a);
    var r, w := TwoEntries(d, adds, a);
    UndoInv(System(d2, [e, [c]], 2), r, w);
    UndoInv(System(d1, [e, [c]], 1), r.(index := 1), w);
    var s0 := System(Doc(d.forest, d1.maxId), [u, [c]], 0);
    PasteStores(d, adds, a);
    AddsSafe(d, adds, [u, [c]], d.maxId + Size(adds[0].tree));
    var w1 := RedoInv(s0, r.(index := 0), w);
    var s1 := EditorCommands.Redo(s0);
    PlainUndo(d1, a) by { AddsUndone(d, adds, 0); }
    SecondPlain(s0, u, c);
    var w2 := RedoInv(s1, r.(index := 1), w1);
    InvCurrent(EditorCommands.Redo(s1), r.(index := 2), w2);
  }

  lemma {:induction false} SecondPlain(s: System, u: Entry, c: Cmd)
    requires s.index == 0 && s.stack == [u, [c]] && !c.Add?
    ensures var s1 := EditorCommands.Redo(s); s1.index == 1 && |s1.stack| == 2 && RedoSafe(s1.stack, 1)
  {
    var (d5, e5) := RedoSeq(s.doc, u);
    assert [u, [c]][0 := e5] == [e5, [c]];
    RemapIsRename(c, PickedUp(e5));
  }

  /** What a command on an item outside the later trees stores. */
  lemma {:induction false} PasteStores(d: Doc, adds: seq<Action>, a: Action)
    requires Version(d.forest, d.maxId) && Additions(d.forest, adds) && adds != [] && PerformAll(d, adds).Some?
    requires !a.NewItem? && Possible(PerformAll(d, adds).value.0, a)
    requires Within(a, d.maxId + Size(adds[0].tree))
    ensures forall y :: y in Mentions(Perform(PerformAll(d, adds).value.0, a).1) ==> y <= d.maxId + Size(adds[0].tree)
  {
    var (d1, c) := Perform(d, adds[0]);
    AddUndone(d, adds[0], 0);
    FreshenShape(adds[0].tree, d.maxId);
    AddsUndone(d1, adds[1..], 0);
    StoresWithin(d1, adds[1..], a);
  }

  /** An item moved into one of the later trees is at the top afterwards. */
  lemma {:induction false} PasteInto(d: Doc, adds: seq<Action>, a: Action)
    requires Version(d.forest, d.maxId) && Additions(d.forest, adds) && adds != [] && PerformAll(d, adds).Some?
    requires a.MoveItem? && Possible(PerformAll(d, adds).value.0, a)
    requires a.item <= d.maxId + Size(adds[0].tree) < a.newParent
    ensures var (d1, e) := PerformAll(d, adds).value; var (d2, c) := Perform(d1, a);
            var s := System(Doc(d.forest, d1.maxId), [UndoneAdds(d, adds), [c]], 0);
            Erase(EditorCommands.Redo(EditorCommands.Redo(s)).doc.forest) != Erase(d2.forest)
  {
    var (d1, e) := PerformAll(d, adds).value;
    var n, top := d1.maxId, MoveItem(a.item, TOP, a.newPos);
    var c, c' := Perform(d1, a).1, Perform(d1, top).1;
    AddsUndone(d, adds, 0);
    PasteFollows(d, adds, top);
    var pairs := FirstRedo(d, adds, c, n);
    var pairs' := FirstRedo(d, adds, c', n);
    var s1 := EditorCommands.Redo(System(Doc(d.forest, n), [UndoneAdds(d, adds), [c]], 0));
    var s1' := EditorCommands.Redo(System(Doc(d.forest, n), [UndoneAdds(d, adds), [c']], 0));
    SecondRedo(s1, Renamed(c, pairs));
    SecondRedo(s1', Renamed(c', pairs));
    RemovedFrom(d1.forest, a.item, a.newParent);
    GoneFrom(d, adds, n, a.newParent);
    NoTop(d, adds, n);
    UnknownIsTop(s1.doc.forest, Subst(a.item, pairs), a.newParent, a.newPos);
    UnderIsNotTop(d1.forest, a.item, a.newParent, a.newPos);
  }

  /**
    A macro of any number of additions, at any parents, and after it an edit, a
    switch or a move of one item, both undone and redone: the document is again the
    last version exactly when the command is about nothing in the trees that later
    commands of the macro added, or about an item of theirs but changes nothing.
  */
  lemma {:induction false} PasteExact(d: Doc, adds: seq<Action>, a: Action)
    requires Version(d.forest, d.maxId) && Additions(d.forest, adds) && adds != [] && PerformAll(d, adds).Some?
    requires !a.NewItem? && Possible(PerformAll(d, adds).value.0, a)
    ensures var (d1, e) := PerformAll(d, adds).value; var (d2, c) := Perform(d1, a);
            var s := EditorCommands.Undo(EditorCommands.Undo(System(d2, [e, [c]], 2)));
            var hi := d.maxId + Size(adds[0].tree);
            Erase(EditorCommands.Redo(EditorCommands.Redo(s)).doc.forest) == Erase(d2.forest)
            <==> Within(a, hi) || (a.item > hi && Erase(d2.forest) == Erase(d1.forest))
  {
    var (d1, e) := PerformAll(d, adds).value;
    var c := Perform(d1, a).1;
    PasteUndo(d, adds, a);
    AddsBack(d, adds);
    PlainUndo(d1, a);
    if a.item > d.maxId + Size(adds[0].tree) {
      PasteStale(d, adds, c, d1.maxId);
    } else if Within(a, d.maxId + Size(adds[0].tree)) {
      PasteFollows(d, adds, a);
    } else {
      PasteInto(d, adds, a);
    }
  }

  // ---------------------------------------------------------------- moves

  /** A move's records are true: the item hangs where the command says, and never moves below itself. */
  ghost predicate Movable(f: Forest<Item>, item: int, from: int, to: int) {
    item in Ids(f) && ParentOf(f, item, TOP) == from && (to == TOP || to in Ids(Remove(f, item)))
  }

  lemma {:induction false} LinkMovable(a: Forest<Item>, c: Cmd, b: Forest<Item>, undone: bool, n: nat)
    requires Link(a, c, b, undone) && c.Move? && Version(a, n) && Version(b, n)
    ensures Movable(a, c.item, c.oldParent, c.newParent) && Movable(b, c.item, c.newParent, c.oldParent)
  {
    var m, t := Remove(a, c.item), Sub(a, c.item);
    RemoveIds(a, c.item);
    ParentInsertHere(m, c.oldPos, t, TOP);
    ParentInsertHere(m, c.newPos, t, TOP);
    assert TOP !in Ids(m);
    if c.oldParent != TOP { ParentInsertUnder(m, c.oldParent, c.oldPos, t, TOP); }
    if c.newParent != TOP { ParentInsertUnder(m, c.newParent, c.newPos, t, TOP); }
  }

  /** In every reachable state, undoing or redoing a move takes the item from where it hangs to a node outside it. */
  lemma {:induction false} MovesAreProper(d: Doc, cs: seq<Cmd>, k: nat, w: seq<Forest<Item>>)
    requires History(d, cs, k, w)
    ensures k > 0 && cs[k - 1].Move? ==> Movable(d.forest, cs[k - 1].item, cs[k - 1].newParent, cs[k - 1].oldParent)
    ensures k < |cs| && cs[k].Move? ==> Movable(d.forest, cs[k].item, cs[k].oldParent, cs[k].newParent)
  {
    assert Sound(d.maxId, cs, k, w, k - 1) && Sound(d.maxId, cs, k, w, k);
    if k > 0 && cs[k - 1].Move? { LinkMovable(w[k - 1], cs[k - 1], w[k], false, d.maxId); }
    if k < |cs| && cs[k].Move? { LinkMovable(w[k], cs[k], w[k + 1], true, d.maxId); }
  }

  /** Moving an item anywhere outside itself and undoing the move restores the forest exactly. */
  lemma {:induction false} MoveAndBack(d: Doc, item: int, newParent: int, newPos: nat)
    requires Version(d.forest, d.maxId) && Possible(d, MoveItem(item, newParent, newPos))
    ensures var (d1, c) := Perform(d, MoveItem(item, newParent, newPos));
            && UndoCmd(d1, c) == (d, c) && RedoCmd(d, c) == (d1, c)
            && Ids(d1.forest) == Ids(d.forest) && Wf(d1.forest) && Size(d1.forest) == Size(d.forest)
  {
    var (d1, c) := Perform(d, MoveItem(item, newParent, newPos));
    PerformLinks(d, MoveItem(item, newParent, newPos));
    UndoLink(d.forest, c, d1.forest, d.maxId);
    RemoveIds(d.forest, item);
    InsertIds(Remove(d.forest, item), newParent, newPos, Sub(d.forest, item));
    SizeRemove(d.forest, item);
    SizeInsert(Remove(d.forest, item), newParent, newPos, Sub(d.forest, item));
  }

  lemma {:induction false} SizeRemove(f: Forest<Item>, x: int)
    requires Wf(f) && x in Ids(f)
    ensures Size(Remove(f, x)) + Size(Sub(f, x)) == Size(f)
  {
    if f.id != x {
      if x in Ids(f.kids) {
        SizeRemove(f.kids, x);
        RemoveAbsent(f.rest, x);
      } else {
        SizeRemove(f.rest, x);
        RemoveAbsent(f.kids, x);
      }
    }
  }

  lemma {:induction false} SizeInsertHere(f: Forest<Item>, pos: int, t: Forest<Item>)
    requires Single(t)
    ensures Size(InsertHere(f, pos, t)) == Size(f) + Size(t)
  {
    if f.Cons? && pos > 0 { SizeInsertHere(f.rest, pos - 1, t); }
  }

  lemma {:induction false} SizeInsert(f: Forest<Item>, parent: int, pos: int, t: Forest<Item>)
    requires Single(t) && Wf(f)
    ensures Size(Insert(f, parent, pos, t)) == Size(f) + Size(t)
  {
    if parent !in Ids(f) {
      SizeInsertHere(f, pos, t);
    } else if f.id == parent {
      SizeInsertHere(f.kids, pos, t);
    } else if parent in Ids(f.kids) {
      SizeInsert(f.kids, parent, pos, t);
      InsertUnderAbsent(f.rest, parent, pos, t);
    } else {
      SizeInsert(f.rest, parent, pos, t);
      InsertUnderAbsent(f.kids, parent, pos, t);
    }
  }
}
