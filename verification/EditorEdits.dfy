/**
  What the user gets back: each action changes the document in just the place it
  names, and rapid edits of one property are undone together, slower ones, or edits of
  something else, one by one (src/EditorModifyPropertyCommand.cpp, mergeWith).
*/
module EditorEdits {
  import opened Common
  import opened Forests
  import opened EditorCommands
  import opened EditorHistory
  import EditorRuns

  // ---------------------------------------------------------------- what an action does

  /** The siblings that the children of `parent` are, or the roots. */
  function Siblings(f: Forest<Item>, parent: int): seq<int> {
    if parent == TOP then Tops(f) else Tops(Kids(f, parent))
  }

  /** The tree of `x` hangs under `parent` at that position among the others there, or at the end of a shorter list. */
  ghost predicate Hangs(f: Forest<Item>, x: int, parent: int, pos: nat) {
    && x in Ids(f) && ParentOf(f, x, TOP) == parent
    && PositionOf(f, x) == Clamped(pos, |Siblings(Remove(f, x), parent)|)
  }

  /** Item `x` holds `data`, and nothing else differs. */
  ghost predicate OnlyItem(f: Forest<Item>, g: Forest<Item>, x: int, data: Item) {
    x in Ids(f) && x in Ids(g) && ItemOf(g, x) == data && Update(g, x, ItemOf(f, x)) == f
  }

  /** The document after an action, in terms of where things are and what they hold. */
  ghost predicate Done(d: Doc, a: Action, d': Doc) {
    match a
    case NewItem(parent, pos, tree) =>
      var x := d.maxId + 1;
      && x !in Ids(d.forest) && Hangs(d'.forest, x, parent, pos)
      && Erase(Sub(d'.forest, x)) == Erase(tree) && Remove(d'.forest, x) == d.forest
    case MoveItem(item, newParent, newPos) =>
      && Hangs(d'.forest, item, newParent, newPos)
      && Sub(d'.forest, item) == Sub(d.forest, item) && Remove(d'.forest, item) == Remove(d.forest, item)
    case EditItem(item, data) => OnlyItem(d.forest, d'.forest, item, data)
    case SwitchItem(item, on) =>
      item in Ids(d.forest) && OnlyItem(d.forest, d'.forest, item, ItemOf(d.forest, item).(active := on))
  }

  lemma {:induction false} Inserted(m: Forest<Item>, parent: int, pos: nat, t: Forest<Item>)
    requires Wf(m) && TOP !in Ids(m) && Single(t) && t.id !in Ids(m) && (parent == TOP || parent in Ids(m))
    ensures var f := Insert(m, parent, pos, t);
            Hangs(f, t.id, parent, pos) && Sub(f, t.id) == t && Remove(f, t.id) == m
  {
    InsertIds(m, parent, pos, t);
    RemoveInsert(m, parent, pos, t);
    if parent == TOP {
      ParentInsertHere(m, pos, t, TOP);
      PlaceHere(m, pos, t);
    } else {
      ParentInsertUnder(m, parent, pos, t, TOP);
      PlaceUnder(m, parent, pos, t);
    }
  }

  lemma {:induction false} ItemUpdate(f: Forest<Item>, x: int, data: Item)
    requires Wf(f) && x in Ids(f)
    ensures OnlyItem(f, Update(f, x, data), x, data)
  {
    UpdateIds(f, x, data);
    UpdateBack(f, x, data);
  }

  /** An item can be added or moved anywhere but into itself; it can be moved, edited or switched if it is there. */
  lemma {:induction false} PossibleExactly(d: Doc, a: Action)
    requires Version(d.forest, d.maxId)
    ensures Possible(d, a) <==>
            match a
            case NewItem(parent, _, tree) => Single(tree) && (parent == TOP || parent in Ids(d.forest))
            case MoveItem(item, parent, _) =>
              item in Ids(d.forest)
              && (parent == TOP || (parent in Ids(d.forest) && parent !in Ids(Sub(d.forest, item))))
            case EditItem(item, _) => item in Ids(d.forest)
            case SwitchItem(item, _) => item in Ids(d.forest)
  {
    if a.MoveItem? { RemoveIds(d.forest, a.item); }
  }

  /** Every action puts, moves, edits or switches just what it names. */
  lemma {:induction false} ActionDone(d: Doc, a: Action)
    requires Version(d.forest, d.maxId) && Possible(d, a)
    ensures Done(d, a, Perform(d, a).0)
  {
    var f := d.forest;
    match a
    case NewItem(parent, pos, tree) =>
      var t := Freshen(tree, d.maxId);
      FreshenBeyond(tree, d.maxId, f);
      assert t.id in Ids(t) && t.id == d.maxId + 1;
      FreshenShape(tree, d.maxId);
      FreshenErased(tree, d.maxId);
      Inserted(f, parent, pos, t);
    case MoveItem(item, newParent, newPos) =>
      RemoveIds(f, item);
      Inserted(Remove(f, item), newParent, newPos, Sub(f, item));
    case EditItem(item, data) => ItemUpdate(f, item, data);
    case SwitchItem(item, on) => ItemUpdate(f, item, ItemOf(f, item).(active := on));
  }

  // ---------------------------------------------------------------- runs, seen from outside

  /** The document and the list of versions at one moment. */
  datatype Moment = Moment(forest: Forest<Item>, list: Reference)

  /** The document is the list's current version. */
  predicate Current(m: Moment) {
    Positioned(m.list) && Erase(m.forest) == m.list.versions[m.list.index]
  }

  /** The list after an edit of one property: one more version, or the last one replaced. */
  predicate NotedEdit(r: Reference, r': Reference, item: int, property: string, now: nat)
    requires Positioned(r) && Positioned(r')
  {
    && r'.index == (if Continues(r, item, property, now) then r.index else r.index + 1)
    && r'.index > 0 && r'.edits[r'.index - 1] == Some(Edit(item, property, now))
    && r'.versions[..r'.index] == r.versions[..r'.index]
  }

  /** What one operation does to the list of versions. */
  predicate Follows(m: Moment, op: Op, m': Moment)
    requires Current(m) && Current(m')
  {
    match op
    case Act(_) =>
      m'.list == m.list || (m'.list.index == m.list.index + 1 && m'.list.edits[m.list.index] == None
                            && m'.list.versions[..m'.list.index] == m.list.versions[..m'.list.index])
    case Property(item, property, data, now) =>
      if item in Ids(m.forest)
      then NotedEdit(m.list, m'.list, item, property, now) && Erase(m'.forest) == Erase(Update(m.forest, item, data))
      else m' == m
    case UndoOp => m'.list == if m.list.index > 0 then m.list.(index := m.list.index - 1) else m.list
    case RedoOp => m'.list == if m.list.index < |m.list.edits| then m.list.(index := m.list.index + 1) else m.list
  }

  /** The document is always the current version, and every operation does to the list what it should. */
  ghost predicate Faithful(ms: seq<Moment>, ops: seq<Op>) {
    && |ms| == |ops| + 1
    && (forall k :: 0 <= k < |ms| ==> Current(ms[k]))
    && (forall k :: 0 <= k < |ops| ==> FollowsAt(ms, ops, k))
  }

  predicate FollowsAt(ms: seq<Moment>, ops: seq<Op>, k: nat)
    requires k < |ops| && |ms| == |ops| + 1
  {
    Current(ms[k]) && Current(ms[k + 1]) && Follows(ms[k], ops[k], ms[k + 1])
  }

  function MomentAt(d: Doc, ops: seq<Op>, n: nat): Moment
    requires n <= |ops|
  {
    var (s, r) := EditorRuns.Both(d, ops, n);
    Moment(s.doc.forest, r)
  }

  lemma {:induction false} StepFollows(s: System, r: Reference, op: Op)
    requires s.index <= |s.stack| && Positioned(r)
    requires Current(Moment(s.doc.forest, r))
    requires var (s', r') := Step(s, r, op); Current(Moment(s'.doc.forest, r'))
    ensures var (s', r') := Step(s, r, op); Follows(Moment(s.doc.forest, r), op, Moment(s'.doc.forest, r'))
  {
  }

  lemma {:induction false} AllowedBefore(d: Doc, ops: seq<Op>, n: nat, k: nat)
    requires k <= n && EditorRuns.AllAllowed(d, ops, n)
    ensures EditorRuns.AllAllowed(d, ops, k)
  {
    if k < n { AllowedBefore(d, ops, n - 1, k); }
  }

  lemma {:induction false} MomentFollows(d: Doc, ops: seq<Op>, k: nat)
    requires k < |ops| && Current(MomentAt(d, ops, k)) && Current(MomentAt(d, ops, k + 1))
    ensures Follows(MomentAt(d, ops, k), ops[k], MomentAt(d, ops, k + 1))
  {
    var (s, r) := EditorRuns.Both(d, ops, k);
    StepFollows(s, r, ops[k]);
  }

  /** Every run of the editor in which nothing is redone while that is unsafe is faithful. */
  lemma {:induction false} EditorIsFaithful(d: Doc, ops: seq<Op>) returns (ms: seq<Moment>)
    requires Version(d.forest, d.maxId) && EditorRuns.AllAllowed(d, ops, |ops|)
    ensures Faithful(ms, ops) && forall k :: 0 <= k <= |ops| ==> ms[k] == MomentAt(d, ops, k)
  {
    ms := seq(|ops| + 1, k requires 0 <= k <= |ops| => MomentAt(d, ops, k));
    forall k | 0 <= k < |ms| ensures Current(ms[k]) {
      AllowedBefore(d, ops, |ops|, k);
      EditorRuns.EditorFollowsVersions(d, ops, k);
    }
    forall k | 0 <= k < |ops| ensures FollowsAt(ms, ops, k) {
      assert Current(ms[k]) && Current(ms[k + 1]);
      MomentFollows(d, ops, k);
    }
  }

  // ---------------------------------------------------------------- undoing edits

  /** Operation `n` edits that property of an item that is there. */
  predicate Edits(ms: seq<Moment>, ops: seq<Op>, n: nat, item: int, property: string, now: nat) {
    && n < |ops| < |ms| && ops[n].Property? && item in Ids(ms[n].forest)
    && ops[n].item == item && ops[n].property == property && ops[n].now == now
  }

  /** Undoing right after an edit goes back to the version before the one that the edit made. */
  lemma {:induction false} EditUndone(ms: seq<Moment>, ops: seq<Op>, n: nat, item: int, property: string, now: nat)
    requires Faithful(ms, ops) && Edits(ms, ops, n, item, property, now) && n + 1 < |ops| && ops[n + 1].UndoOp?
    ensures Current(ms[n])
    ensures var r := ms[n].list;
            Erase(ms[n + 2].forest) == r.versions[if Continues(r, item, property, now) then r.index - 1 else r.index]
  {
    assert FollowsAt(ms, ops, n) && FollowsAt(ms, ops, n + 1);
    var r, r' := ms[n].list, ms[n + 1].list;
    assert r'.versions[..r'.index][r'.index - 1] == r.versions[..r'.index][r'.index - 1];
    assert Current(ms[n + 2]);
  }

  /**
    Undone right after it was made, an edit of one property takes exactly itself back,
    when the operation before it edited another property or item, or longer ago than the
    window.
  */
  lemma {:induction false} SlowEditsApart(ms: seq<Moment>, ops: seq<Op>, n: nat, item: int, property: string, now: nat,
                                          item': int, property': string, now': nat)
    requires Faithful(ms, ops) && n + 2 < |ops| && ops[n + 2].UndoOp?
    requires Edits(ms, ops, n, item, property, now) && Edits(ms, ops, n + 1, item', property', now')
    requires item' != item || property' != property || now' > now + MERGE_TIMEOUT
    ensures Erase(ms[n + 3].forest) == Erase(ms[n + 1].forest)
  {
    assert FollowsAt(ms, ops, n) && Current(ms[n + 1]);
    EditUndone(ms, ops, n + 1, item', property', now');
  }

  /** After anything that is no edit of one property, an undone edit takes exactly itself back, however soon it came. */
  lemma {:induction false} EditAfterAction(ms: seq<Moment>, ops: seq<Op>, n: nat, item: int, property: string, now: nat)
    requires Faithful(ms, ops) && n + 2 < |ops| && ops[n + 2].UndoOp?
    requires ops[n].Act? && ms[n + 1].list != ms[n].list && Edits(ms, ops, n + 1, item, property, now)
    ensures Erase(ms[n + 3].forest) == Erase(ms[n + 1].forest)
  {
    assert FollowsAt(ms, ops, n) && Current(ms[n + 1]);
    EditUndone(ms, ops, n + 1, item, property, now);
  }

  /** Operation `k` edits that property, within the window of the operation before it unless it is the first. */
  predicate InBurst(ms: seq<Moment>, ops: seq<Op>, n: nat, k: nat, item: int, property: string) {
    && k < |ops| && ops[k].Property? && Edits(ms, ops, k, item, property, ops[k].now)
    && (k > n ==> ops[k - 1].Property? && ops[k].now <= ops[k - 1].now + MERGE_TIMEOUT)
  }

  /** Operations `n` up to `m` edit one property of one item, each within the window of the one before. */
  ghost predicate Burst(ms: seq<Moment>, ops: seq<Op>, n: nat, m: nat, item: int, property: string) {
    n < m <= |ops| && forall k :: n <= k < m ==> InBurst(ms, ops, n, k, item, property)
  }

  /** A burst makes one version, however long it is. */
  lemma {:induction false} BurstIsOne(ms: seq<Moment>, ops: seq<Op>, n: nat, m: nat, item: int, property: string)
    requires Faithful(ms, ops) && Burst(ms, ops, n, m, item, property)
    requires ops[n].Property? && Current(ms[n]) && !Continues(ms[n].list, item, property, ops[n].now)
    ensures var r, r' := ms[n].list, ms[m].list;
            && Positioned(r) && Positioned(r') && ops[m - 1].Property?
            && r'.index == r.index + 1 && r'.versions[..r'.index] == r.versions[..r'.index]
            && r'.edits[r.index] == Some(Edit(item, property, ops[m - 1].now))
    decreases m
  {
    var k: nat := m - 1;
    assert InBurst(ms, ops, n, k, item, property) && FollowsAt(ms, ops, k);
    if k > n { BurstIsOne(ms, ops, n, k, item, property); }
  }

  /** Rapid edits of one property, however many, are taken back by one undo, to the document before the first. */
  lemma {:induction false} BurstUndoneAtOnce(ms: seq<Moment>, ops: seq<Op>, n: nat, m: nat, item: int, property: string)
    requires Faithful(ms, ops) && Burst(ms, ops, n, m, item, property)
    requires ops[n].Property? && Current(ms[n]) && !Continues(ms[n].list, item, property, ops[n].now)
    requires m < |ops| && ops[m].UndoOp?
    ensures Erase(ms[m + 1].forest) == Erase(ms[n].forest)
  {
    BurstIsOne(ms, ops, n, m, item, property);
    assert FollowsAt(ms, ops, m) && Current(ms[m + 1]);
    var r, r' := ms[n].list, ms[m].list;
    assert r'.versions[..r'.index][r.index] == r.versions[..r'.index][r.index];
  }
}
