/**
  Ordered forests of identified nodes, as the editor's units keep them: each node
  has an id, its own data, an ordered list of children, and siblings after it.
  (Trees are written first-child/next-sibling, so one recursion covers both.)
*/
module Forests {

  datatype Forest<T> = Nil | Cons(id: int, item: T, kids: Forest<T>, rest: Forest<T>)

  /** A forest of one tree. */
  predicate Single<T>(f: Forest<T>) {
    f.Cons? && f.rest.Nil?
  }

  function Ids<T>(f: Forest<T>): set<int> {
    match f
    case Nil => {}
    case Cons(id, _, kids, rest) => {id} + Ids(kids) + Ids(rest)
  }

  /** No id occurs twice. */
  predicate Wf<T>(f: Forest<T>) {
    match f
    case Nil => true
    case Cons(id, _, kids, rest) =>
      id !in Ids(kids) && id !in Ids(rest) && Ids(kids) !! Ids(rest) && Wf(kids) && Wf(rest)
  }

  function Size<T>(f: Forest<T>): nat {
    match f
    case Nil => 0
    case Cons(_, _, kids, rest) => 1 + Size(kids) + Size(rest)
  }

  /** The ids in pre-order: a node, its children, its later siblings. */
  function Order<T>(f: Forest<T>): (s: seq<int>)
    ensures |s| == Size(f)
  {
    match f
    case Nil => []
    case Cons(id, _, kids, rest) => [id] + Order(kids) + Order(rest)
  }

  lemma {:induction false} OrderIds<T>(f: Forest<T>)
    ensures forall x :: x in Order(f) <==> x in Ids(f)
  {
    if f.Cons? {
      OrderIds(f.kids);
      OrderIds(f.rest);
    }
  }

  /** The forest without the tree rooted at `x`. */
  function Remove<T>(f: Forest<T>, x: int): Forest<T> {
    match f
    case Nil => Nil
    case Cons(id, item, kids, rest) => if id == x then rest else Cons(id, item, Remove(kids, x), Remove(rest, x))
  }

  /** The tree rooted at `x`. */
  function Sub<T>(f: Forest<T>, x: int): (t: Forest<T>)
    ensures x in Ids(f) ==> Single(t) && t.id == x
  {
    match f
    case Nil => Nil
    case Cons(id, item, kids, rest) =>
      if id == x then Cons(id, item, kids, Nil) else if x in Ids(kids) then Sub(kids, x) else Sub(rest, x)
  }

  /** The children of `x`. */
  function Kids<T>(f: Forest<T>, x: int): Forest<T> {
    var t := Sub(f, x);
    if t.Nil? then Nil else t.kids
  }

  /** Deleting nodes one after another, each with what is still below it. */
  function Prune<T>(f: Forest<T>, xs: seq<int>): Forest<T>
    decreases |xs|
  {
    if xs == [] then f else Prune(Remove(f, xs[0]), xs[1..])
  }

  /** The roots of a list of trees. */
  function Tops<T>(f: Forest<T>): (s: seq<int>)
    ensures f.Cons? <==> s != []
  {
    if f.Nil? then [] else [f.id] + Tops(f.rest)
  }

  /** Puts tree `t` at position `pos` of a sibling list, at the end if the list is shorter. */
  function InsertHere<T>(f: Forest<T>, pos: int, t: Forest<T>): Forest<T>
    requires Single(t)
  {
    match f
    case Nil => t
    case Cons(id, item, kids, rest) =>
      if pos <= 0 then Cons(t.id, t.item, t.kids, f) else Cons(id, item, kids, InsertHere(rest, pos - 1, t))
  }

  function InsertUnder<T>(f: Forest<T>, parent: int, pos: int, t: Forest<T>): Forest<T>
    requires Single(t)
  {
    match f
    case Nil => Nil
    case Cons(id, item, kids, rest) =>
      if id == parent then Cons(id, item, InsertHere(kids, pos, t), rest)
      else Cons(id, item, InsertUnder(kids, parent, pos, t), InsertUnder(rest, parent, pos, t))
  }

  /** Puts tree `t` among the children of `parent`, or at the top when there is no such node. */
  function Insert<T>(f: Forest<T>, parent: int, pos: int, t: Forest<T>): Forest<T>
    requires Single(t)
  {
    if parent in Ids(f) then InsertUnder(f, parent, pos, t) else InsertHere(f, pos, t)
  }

  /** Moves the tree of `x`; an unknown parent means the top. */
  function ReParent<T>(f: Forest<T>, x: int, parent: int, pos: int): Forest<T> {
    if x in Ids(f) then Insert(Remove(f, x), parent, pos, Sub(f, x)) else f
  }

  /** The parent of `x`, where `above` stands for the parent of the top level. */
  function ParentOf<T>(f: Forest<T>, x: int, above: int): int {
    match f
    case Nil => above
    case Cons(id, _, kids, rest) =>
      if id == x then above else if x in Ids(kids) then ParentOf(kids, x, id) else ParentOf(rest, x, above)
  }

  /** The position of `x` among its siblings. */
  function PositionOf<T>(f: Forest<T>, x: int): nat {
    match f
    case Nil => 0
    case Cons(id, _, kids, rest) =>
      if id == x then 0
      else if x in Ids(kids) then PositionOf(kids, x)
      else if AtTop(rest, x) then 1 + PositionOf(rest, x)
      else PositionOf(rest, x)
  }

  predicate AtTop<T>(f: Forest<T>, x: int) {
    f.Cons? && (f.id == x || AtTop(f.rest, x))
  }

  function ItemOf<T>(f: Forest<T>, x: int): T
    requires x in Ids(f)
  {
    if f.id == x then f.item else if x in Ids(f.kids) then ItemOf(f.kids, x) else ItemOf(f.rest, x)
  }

  function Update<T>(f: Forest<T>, x: int, item: T): Forest<T> {
    match f
    case Nil => Nil
    case Cons(id, was, kids, rest) =>
      Cons(id, if id == x then item else was, Update(kids, x, item), Update(rest, x, item))
  }

  /** The shape and contents of a forest, ids left out. */
  function Erase<T>(f: Forest<T>): Forest<T> {
    match f
    case Nil => Nil
    case Cons(_, item, kids, rest) => Cons(0, item, Erase(kids), Erase(rest))
  }

  /** Rebuilds a forest under the ids after `n`, handed out in pre-order. */
  function Freshen<T>(f: Forest<T>, n: nat): (r: Forest<T>)
    ensures Single(f) ==> Single(r)
  {
    match f
    case Nil => Nil
    case Cons(_, item, kids, rest) => Cons(n + 1, item, Freshen(kids, n + 1), Freshen(rest, n + 1 + Size(kids)))
  }

  // ---------------------------------------------------------------- insertion and removal

  lemma {:induction false} RemoveAbsent<T>(f: Forest<T>, x: int)
    requires x !in Ids(f)
    ensures Remove(f, x) == f
  {
    if f.Cons? {
      RemoveAbsent(f.kids, x);
      RemoveAbsent(f.rest, x);
    }
  }

  lemma {:induction false} RemoveIds<T>(f: Forest<T>, x: int)
    requires Wf(f)
    ensures Wf(Remove(f, x))
    ensures x in Ids(f) ==> Single(Sub(f, x)) && Sub(f, x).id == x && Wf(Sub(f, x))
    ensures x in Ids(f) ==> Ids(f) == Ids(Remove(f, x)) + Ids(Sub(f, x)) && Ids(Remove(f, x)) !! Ids(Sub(f, x))
    ensures x !in Ids(f) ==> Remove(f, x) == f
  {
    if f.Cons? {
      RemoveIds(f.kids, x);
      RemoveIds(f.rest, x);
    }
  }

  lemma {:induction false} SubAbsent<T>(f: Forest<T>, x: int)
    ensures x !in Ids(f) ==> Sub(f, x) == Nil
  {
    if f.Cons? { SubAbsent(f.rest, x); }
  }

  /** The tree of a node that is there. */
  lemma {:induction false} SubIs<T>(f: Forest<T>, x: int)
    requires x in Ids(f)
    ensures Sub(f, x) == Cons(x, ItemOf(f, x), Kids(f, x), Nil)
  {
    if f.id != x {
      if x in Ids(f.kids) { SubIs(f.kids, x); } else { SubIs(f.rest, x); }
    }
  }

  lemma {:induction false} InsertHereIds<T>(f: Forest<T>, pos: int, t: Forest<T>)
    requires Single(t)
    ensures Ids(InsertHere(f, pos, t)) == Ids(f) + Ids(t)
    ensures Wf(f) && Wf(t) && Ids(f) !! Ids(t) ==> Wf(InsertHere(f, pos, t))
  {
    if f.Cons? && pos > 0 { InsertHereIds(f.rest, pos - 1, t); }
  }

  lemma {:induction false} InsertUnderAbsent<T>(f: Forest<T>, parent: int, pos: int, t: Forest<T>)
    requires Single(t) && parent !in Ids(f)
    ensures InsertUnder(f, parent, pos, t) == f
  {
    if f.Cons? {
      InsertUnderAbsent(f.kids, parent, pos, t);
      InsertUnderAbsent(f.rest, parent, pos, t);
    }
  }

  lemma {:induction false} InsertUnderIds<T>(f: Forest<T>, parent: int, pos: int, t: Forest<T>)
    requires Single(t) && Wf(f) && parent in Ids(f)
    ensures Ids(InsertUnder(f, parent, pos, t)) == Ids(f) + Ids(t)
    ensures Wf(t) && Ids(f) !! Ids(t) ==> Wf(InsertUnder(f, parent, pos, t))
  {
    if f.id == parent {
      InsertHereIds(f.kids, pos, t);
    } else if parent in Ids(f.kids) {
      InsertUnderIds(f.kids, parent, pos, t);
      InsertUnderAbsent(f.rest, parent, pos, t);
    } else {
      InsertUnderIds(f.rest, parent, pos, t);
      InsertUnderAbsent(f.kids, parent, pos, t);
    }
  }

  lemma {:induction false} InsertIds<T>(f: Forest<T>, parent: int, pos: int, t: Forest<T>)
    requires Single(t) && Wf(f)
    ensures Ids(Insert(f, parent, pos, t)) == Ids(f) + Ids(t)
    ensures Wf(t) && Ids(f) !! Ids(t) ==> Wf(Insert(f, parent, pos, t))
  {
    if parent in Ids(f) { InsertUnderIds(f, parent, pos, t); } else { InsertHereIds(f, pos, t); }
  }

  lemma {:induction false} RemoveInsertHere<T>(f: Forest<T>, pos: int, t: Forest<T>)
    requires Single(t) && t.id !in Ids(f)
    ensures Remove(InsertHere(f, pos, t), t.id) == f
    ensures Sub(InsertHere(f, pos, t), t.id) == t
  {
    if f.Cons? {
      RemoveAbsent(f.kids, t.id);
      if pos <= 0 { RemoveAbsent(f.rest, t.id); } else { RemoveInsertHere(f.rest, pos - 1, t); }
    }
  }

  lemma {:induction false} RemoveInsertUnder<T>(f: Forest<T>, parent: int, pos: int, t: Forest<T>)
    requires Single(t) && Wf(f) && parent in Ids(f) && t.id !in Ids(f)
    ensures Remove(InsertUnder(f, parent, pos, t), t.id) == f
    ensures Sub(InsertUnder(f, parent, pos, t), t.id) == t
  {
    RemoveAbsent(f.kids, t.id);
    RemoveAbsent(f.rest, t.id);
    InsertHereIds(f.kids, pos, t);
    if f.id == parent {
      RemoveInsertHere(f.kids, pos, t);
    } else if parent in Ids(f.kids) {
      RemoveInsertUnder(f.kids, parent, pos, t);
      InsertUnderIds(f.kids, parent, pos, t);
      InsertUnderAbsent(f.rest, parent, pos, t);
    } else {
      RemoveInsertUnder(f.rest, parent, pos, t);
      InsertUnderAbsent(f.kids, parent, pos, t);
    }
  }

  /** Taking out what was just put in gives both pieces back. */
  lemma {:induction false} RemoveInsert<T>(f: Forest<T>, parent: int, pos: int, t: Forest<T>)
    requires Single(t) && Wf(f) && t.id !in Ids(f)
    ensures Remove(Insert(f, parent, pos, t), t.id) == f
    ensures Sub(Insert(f, parent, pos, t), t.id) == t
  {
    if parent in Ids(f) { RemoveInsertUnder(f, parent, pos, t); } else { RemoveInsertHere(f, pos, t); }
  }

  lemma {:induction false} TopIds<T>(f: Forest<T>, x: int)
    ensures AtTop(f, x) ==> x in Ids(f)
  {
    if f.Cons? { TopIds(f.rest, x); }
  }

  lemma {:induction false} TopOnly<T>(f: Forest<T>, x: int)
    requires Wf(f) && f.Cons? && x in Ids(f.kids)
    ensures !AtTop(f.rest, x)
  {
    TopIds(f.rest, x);
  }

  lemma {:induction false} InsertHereRemove<T>(f: Forest<T>, x: int)
    requires Wf(f) && AtTop(f, x)
    ensures Single(Sub(f, x)) && InsertHere(Remove(f, x), PositionOf(f, x), Sub(f, x)) == f
  {
    if f.id != x {
      TopIds(f.rest, x);
      RemoveAbsent(f.kids, x);
      InsertHereRemove(f.rest, x);
    } else {
      var r := f.rest;
      if r.Cons? {}
    }
  }

  lemma {:induction false} ParentFacts<T>(f: Forest<T>, x: int, above: int)
    requires Wf(f) && x in Ids(f) && above !in Ids(f)
    ensures AtTop(f, x) <==> ParentOf(f, x, above) == above
    ensures !AtTop(f, x) ==> ParentOf(f, x, above) in Ids(Remove(f, x))
  {
    if f.id == x {
    } else if x in Ids(f.kids) {
      TopOnly(f, x);
      ParentFacts(f.kids, x, f.id);
      RemoveIds(f.kids, x);
      ParentIn(f.kids, x, f.id);
    } else {
      ParentFacts(f.rest, x, above);
      ParentIn(f.rest, x, above);
    }
  }

  lemma {:induction false} ParentIn<T>(f: Forest<T>, x: int, above: int)
    ensures ParentOf(f, x, above) == above || ParentOf(f, x, above) in Ids(f)
  {
    if f.Cons? {
      ParentIn(f.kids, x, f.id);
      ParentIn(f.rest, x, above);
    }
  }

  lemma {:induction false} InsertUnderRemove<T>(f: Forest<T>, x: int, above: int)
    requires Wf(f) && x in Ids(f) && above !in Ids(f) && !AtTop(f, x)
    ensures Single(Sub(f, x))
    ensures InsertUnder(Remove(f, x), ParentOf(f, x, above), PositionOf(f, x), Sub(f, x)) == f
  {
    if x in Ids(f.kids) {
      TopOnly(f, x);
      RemoveAbsent(f.rest, x);
      ParentFacts(f.kids, x, f.id);
      ParentIn(f.kids, x, f.id);
      if AtTop(f.kids, x) {
        InsertHereRemove(f.kids, x);
      } else {
        InsertUnderRemove(f.kids, x, f.id);
        InsertUnderAbsent(f.rest, ParentOf(f, x, above), PositionOf(f, x), Sub(f, x));
      }
    } else {
      RemoveAbsent(f.kids, x);
      InsertUnderRemove(f.rest, x, above);
      ParentFacts(f.rest, x, above);
      ParentIn(f.rest, x, above);
      InsertUnderAbsent(f.kids, ParentOf(f, x, above), PositionOf(f, x), Sub(f, x));
    }
  }

  /** Putting a tree back where it was restores the forest exactly. */
  lemma {:induction false} InsertRemove<T>(f: Forest<T>, x: int, above: int)
    requires Wf(f) && x in Ids(f) && above !in Ids(f)
    ensures Single(Sub(f, x))
    ensures Insert(Remove(f, x), ParentOf(f, x, above), PositionOf(f, x), Sub(f, x)) == f
  {
    ParentFacts(f, x, above);
    RemoveIds(f, x);
    if AtTop(f, x) { InsertHereRemove(f, x); } else { InsertUnderRemove(f, x, above); }
  }

  // ---------------------------------------------------------------- what changes leave alone

  // ---------------------------------------------------------------- where an inserted tree hangs

  lemma {:induction false} ParentInsertHere<T>(f: Forest<T>, pos: int, t: Forest<T>, above: int)
    requires Single(t) && t.id !in Ids(f)
    ensures ParentOf(InsertHere(f, pos, t), t.id, above) == above
  {
    if f.Cons? && pos > 0 { ParentInsertHere(f.rest, pos - 1, t, above); }
  }

  lemma {:induction false} ParentInsertUnder<T>(f: Forest<T>, parent: int, pos: int, t: Forest<T>, above: int)
    requires Single(t) && t.id !in Ids(f) && Wf(f) && parent in Ids(f)
    ensures ParentOf(InsertUnder(f, parent, pos, t), t.id, above) == parent
  {
    InsertHereIds(f.kids, pos, t);
    if f.id == parent {
      ParentInsertHere(f.kids, pos, t, f.id);
    } else if parent in Ids(f.kids) {
      ParentInsertUnder(f.kids, parent, pos, t, f.id);
      InsertUnderIds(f.kids, parent, pos, t);
    } else {
      ParentInsertUnder(f.rest, parent, pos, t, above);
      InsertUnderAbsent(f.kids, parent, pos, t);
    }
  }

  /** At the position asked for, or at the end of a shorter list. */
  function Clamped(pos: nat, length: nat): nat {
    if pos < length then pos else length
  }

  lemma {:induction false} PlaceHere<T>(f: Forest<T>, pos: nat, t: Forest<T>)
    requires Single(t) && t.id !in Ids(f)
    ensures AtTop(InsertHere(f, pos, t), t.id)
    ensures PositionOf(InsertHere(f, pos, t), t.id) == Clamped(pos, |Tops(f)|)
  {
    if f.Cons? && pos > 0 { PlaceHere(f.rest, pos - 1, t); }
  }

  lemma {:induction false} PlaceUnder<T>(f: Forest<T>, parent: int, pos: nat, t: Forest<T>)
    requires Single(t) && t.id !in Ids(f) && Wf(f) && parent in Ids(f)
    ensures PositionOf(InsertUnder(f, parent, pos, t), t.id) == Clamped(pos, |Tops(Kids(f, parent))|)
    ensures !AtTop(InsertUnder(f, parent, pos, t), t.id)
  {
    InsertHereIds(f.kids, pos, t);
    TopIds(f.rest, t.id);
    if f.id == parent {
      PlaceHere(f.kids, pos, t);
    } else if parent in Ids(f.kids) {
      PlaceUnder(f.kids, parent, pos, t);
      InsertUnderIds(f.kids, parent, pos, t);
      InsertUnderAbsent(f.rest, parent, pos, t);
    } else {
      PlaceUnder(f.rest, parent, pos, t);
      InsertUnderAbsent(f.kids, parent, pos, t);
    }
  }

  /** The tree of a node that survives a removal, without what was removed. */
  lemma {:induction false} SubRemove<T>(f: Forest<T>, x: int, z: int)
    requires Wf(f) && z in Ids(Remove(f, x))
    ensures z in Ids(f) && z != x && Kids(Remove(f, x), z) == Remove(Kids(f, z), x)
    ensures ItemOf(Remove(f, x), z) == ItemOf(f, z)
  {
    RemoveIds(f, x);
    if f.Cons? && f.id != x && f.id != z {
      RemoveIds(f.kids, x);
      RemoveIds(f.rest, x);
      if z in Ids(Remove(f.kids, x)) { SubRemove(f.kids, x, z); } else { SubRemove(f.rest, x, z); }
    }
    if f.Cons? && f.id == x {
      KidsWf(f.rest, z);
      RemoveAbsent(Kids(f.rest, z), x);
    }
  }

  lemma {:induction false} TopRemoved<T>(f: Forest<T>, x: int, y: int)
    requires Wf(f)
    ensures AtTop(Remove(f, x), y) ==> AtTop(f, y) && y != x
  {
    if f.Cons? {
      TopIds(f.rest, y);
      if f.id != x { TopRemoved(f.rest, x, y); }
    }
  }

  lemma {:induction false} KidsWf<T>(f: Forest<T>, x: int)
    requires Wf(f)
    ensures Wf(Kids(f, x)) && forall y :: y in Ids(Kids(f, x)) ==> y in Ids(f)
  {
    if f.Cons? && f.id != x {
      KidsWf(f.kids, x);
      KidsWf(f.rest, x);
      SubAbsent(f.rest, x);
    }
  }

  lemma {:induction false} TopUnder<T>(f: Forest<T>, parent: int, pos: int, t: Forest<T>, y: int)
    requires Single(t)
    ensures AtTop(InsertUnder(f, parent, pos, t), y) <==> AtTop(f, y)
  {
    if f.Cons? { TopUnder(f.rest, parent, pos, t, y); }
  }

  /** Putting a tree under another node leaves a node's own data and children in place. */
  lemma {:induction false} KidsUnder<T>(f: Forest<T>, parent: int, pos: int, t: Forest<T>, z: int)
    requires Single(t) && Wf(f) && Ids(f) !! Ids(t) && z in Ids(f) && parent in Ids(f)
    ensures z in Ids(InsertUnder(f, parent, pos, t)) && ItemOf(InsertUnder(f, parent, pos, t), z) == ItemOf(f, z)
    ensures z != parent ==> Kids(InsertUnder(f, parent, pos, t), z) == InsertUnder(Kids(f, z), parent, pos, t)
  {
    InsertUnderIds(f, parent, pos, t);
    if f.id == parent {
      InsertHereIds(f.kids, pos, t);
      if z in Ids(f.kids) {
        KidsHere(f.kids, pos, t, z);
        InsertUnderAbsent(Kids(f, z), parent, pos, t) by { KidsWf(f.kids, z); }
      } else if z in Ids(f.rest) {
        InsertUnderAbsent(Kids(f, z), parent, pos, t) by { KidsWf(f.rest, z); }
      }
    } else if parent in Ids(f.kids) {
      InsertUnderIds(f.kids, parent, pos, t);
      InsertUnderAbsent(f.rest, parent, pos, t);
      if z in Ids(f.kids) {
        KidsUnder(f.kids, parent, pos, t, z);
      } else if z in Ids(f.rest) {
        InsertUnderAbsent(Kids(f, z), parent, pos, t) by { KidsWf(f.rest, z); }
      }
    } else {
      InsertUnderIds(f.rest, parent, pos, t);
      InsertUnderAbsent(f.kids, parent, pos, t);
      if z in Ids(f.rest) {
        KidsUnder(f.rest, parent, pos, t, z);
      } else if z in Ids(f.kids) {
        InsertUnderAbsent(Kids(f, z), parent, pos, t) by { KidsWf(f.kids, z); }
      }
    }
  }

  lemma {:induction false} KidsHere<T>(f: Forest<T>, pos: int, t: Forest<T>, z: int)
    requires Single(t) && Wf(f) && Ids(f) !! Ids(t) && z in Ids(f)
    ensures z in Ids(InsertHere(f, pos, t)) && ItemOf(InsertHere(f, pos, t), z) == ItemOf(f, z)
    ensures Kids(InsertHere(f, pos, t), z) == Kids(f, z)
  {
    InsertHereIds(f, pos, t);
    if pos > 0 && f.id != z && z !in Ids(f.kids) { KidsHere(f.rest, pos - 1, t, z); }
  }

  lemma {:induction false} PruneConcat<T>(f: Forest<T>, a: seq<int>, b: seq<int>)
    ensures Prune(f, a + b) == Prune(Prune(f, a), b)
    decreases |a|
  {
    if a == [] {
      assert a + b == b;
    } else {
      PruneConcat(Remove(f, a[0]), a[1..], b);
      assert (a + b)[1..] == a[1..] + b;
    }
  }

  // ---------------------------------------------------------------- updating items

  lemma {:induction false} UpdateIds<T>(f: Forest<T>, x: int, item: T)
    ensures Ids(Update(f, x, item)) == Ids(f) && (Wf(f) ==> Wf(Update(f, x, item)))
    ensures x !in Ids(f) ==> Update(f, x, item) == f
  {
    if f.Cons? {
      UpdateIds(f.kids, x, item);
      UpdateIds(f.rest, x, item);
    }
  }

  /** Setting an item back undoes setting it. */
  lemma {:induction false} UpdateBack<T>(f: Forest<T>, x: int, item: T)
    requires Wf(f) && x in Ids(f)
    ensures x in Ids(Update(f, x, item)) && ItemOf(Update(f, x, item), x) == item
    ensures Update(Update(f, x, item), x, ItemOf(f, x)) == f
    ensures forall other :: Update(Update(f, x, item), x, other) == Update(f, x, other)
  {
    UpdateIds(f.kids, x, item);
    UpdateIds(f.rest, x, item);
    forall other { UpdateTwice(f, x, item, other); }
    if f.id == x {
      UpdateIds(f.kids, x, f.item);
      UpdateIds(f.rest, x, f.item);
    } else if x in Ids(f.kids) {
      UpdateBack(f.kids, x, item);
      UpdateIds(f.rest, x, ItemOf(f, x));
    } else {
      UpdateBack(f.rest, x, item);
      UpdateIds(f.kids, x, ItemOf(f, x));
    }
  }

  lemma {:induction false} UpdateTwice<T>(f: Forest<T>, x: int, item: T, other: T)
    ensures Update(Update(f, x, item), x, other) == Update(f, x, other)
  {
    if f.Cons? {
      UpdateTwice(f.kids, x, item, other);
      UpdateTwice(f.rest, x, item, other);
    }
  }

  // ---------------------------------------------------------------- fresh ids

  lemma {:induction false} FreshenShape<T>(f: Forest<T>, n: nat)
    ensures Size(Freshen(f, n)) == Size(f) && Erase(Freshen(f, n)) == Erase(f)
  {
    if f.Cons? {
      FreshenShape(f.kids, n + 1);
      FreshenShape(f.rest, n + 1 + Size(f.kids));
    }
  }

  lemma {:induction false} FreshenRange<T>(f: Forest<T>, n: nat, x: int)
    ensures x in Ids(Freshen(f, n)) <==> n < x <= n + Size(f)
  {
    if f.Cons? {
      FreshenRange(f.kids, n + 1, x);
      FreshenRange(f.rest, n + 1 + Size(f.kids), x);
    }
  }

  lemma {:induction false} FreshenIds<T>(f: Forest<T>, n: nat)
    ensures forall x :: x in Ids(Freshen(f, n)) ==> n < x <= n + Size(f)
    ensures forall x :: n < x <= n + Size(f) ==> x in Ids(Freshen(f, n))
  {
    forall x ensures x in Ids(Freshen(f, n)) <==> n < x <= n + Size(f) { FreshenRange(f, n, x); }
  }

  lemma {:induction false} FreshenWf<T>(f: Forest<T>, n: nat)
    ensures Wf(Freshen(f, n))
  {
    if f.Cons? {
      FreshenWf(f.kids, n + 1);
      FreshenWf(f.rest, n + 1 + Size(f.kids));
      var kids, rest := Freshen(f.kids, n + 1), Freshen(f.rest, n + 1 + Size(f.kids));
      FreshenRange(f.kids, n + 1, n + 1);
      FreshenRange(f.rest, n + 1 + Size(f.kids), n + 1);
      forall x | x in Ids(kids) ensures x !in Ids(rest) {
        FreshenRange(f.kids, n + 1, x);
        FreshenRange(f.rest, n + 1 + Size(f.kids), x);
      }
    }
  }

  /** A tree rebuilt beyond every id in use shares no id with the forest. */
  lemma {:induction false} FreshenBeyond<T>(f: Forest<T>, n: nat, g: Forest<T>)
    requires forall x :: x in Ids(g) ==> x <= n
    ensures Wf(Freshen(f, n)) && Size(Freshen(f, n)) == Size(f) && Ids(g) !! Ids(Freshen(f, n))
    ensures forall x :: x in Ids(Freshen(f, n)) ==> n < x <= n + Size(f)
  {
    FreshenWf(f, n);
    FreshenShape(f, n);
    forall x | x in Ids(Freshen(f, n)) ensures n < x <= n + Size(f) && x !in Ids(g) { FreshenRange(f, n, x); }
  }

  lemma {:induction false} EraseFacts<T>(f: Forest<T>)
    ensures Size(Erase(f)) == Size(f) && Erase(Erase(f)) == Erase(f) && (Single(f) <==> Single(Erase(f)))
  {
    if f.Cons? {
      EraseFacts(f.kids);
      EraseFacts(f.rest);
    }
  }

  /** Rebuilding looks at nothing but the shape. */
  lemma {:induction false} FreshenErased<T>(f: Forest<T>, n: nat)
    ensures Freshen(Erase(f), n) == Freshen(f, n)
  {
    if f.Cons? {
      EraseFacts(f.kids);
      FreshenErased(f.kids, n + 1);
      FreshenErased(f.rest, n + 1 + Size(f.kids));
    }
  }
}
