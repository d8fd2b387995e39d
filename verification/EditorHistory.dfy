/**
  Undo and redo step through a plain list of document versions, up to ids, for
  every history of additions, moves, edits and toggles.
*/
module EditorHistory {
  import opened Forests
  import opened Renaming
  import opened EditorCommands

  // ---------------------------------------------------------------- what links two versions

  /** What command `c` records about going from version `a` to version `b`. */
  ghost predicate Link(a: Forest<Item>, c: Cmd, b: Forest<Item>, undone: bool) {
    match c
    case Add(item, parent, pos, snapshot, oldIds, _) =>
      && item in Ids(b)
      && a == Remove(b, item)
      && b == Insert(a, parent, pos, Sub(b, item))
      && parent !in Ids(Sub(b, item))
      && (snapshot.Some? ==> snapshot.value == Erase(Sub(b, item)))
      && (undone ==> snapshot.Some? && oldIds == Order(Sub(b, item)))
    case Move(item, oldParent, newParent, oldPos, newPos) =>
      && item in Ids(a) && item in Ids(b)
      && Remove(a, item) == Remove(b, item)
      && Sub(a, item) == Sub(b, item)
      && a == Insert(Remove(a, item), oldParent, oldPos, Sub(a, item))
      && b == Insert(Remove(a, item), newParent, newPos, Sub(a, item))
      && (oldParent == TOP || oldParent in Ids(Remove(a, item)))
      && (newParent == TOP || newParent in Ids(Remove(a, item)))
    case Modify(item, _, before, after) =>
      item in Ids(a) && ItemOf(a, item) == before && b == Update(a, item, after)
    case Toggle(item, wasActive, isActive) =>
      item in Ids(a) && ItemOf(a, item).active == wasActive &&
          b == Update(a, item, ItemOf(a, item).(active := isActive))
  }

  ghost predicate Version(f: Forest<Item>, n: nat) {
    Wf(f) && Bounded(f, n)
  }

  ghost predicate CmdBounded(c: Cmd, n: nat) {
    && (forall x :: x in Mentions(c) ==> x <= n)
    && (c.Modify? && c.key.Some? ==> c.key.value.item <= n)
  }

  ghost predicate Lacks(w: seq<Forest<Item>>, i: int, x: int) {
    0 <= i < |w| ==> x !in Ids(w[i])
  }

  /** An edit's merge key names its item, or an id that no version carries. */
  ghost predicate KeyOk(c: Cmd, w: seq<Forest<Item>>) {
    c.Modify? && c.key.Some? && c.key.value.item != c.item ==> forall i :: Lacks(w, i, c.key.value.item)
  }

  /** Command `i` leads from version `i` to the next; it is undone from `k` on. */
  ghost predicate Sound(n: nat, cs: seq<Cmd>, k: nat, w: seq<Forest<Item>>, i: int) {
    0 <= i < |cs| < |w| ==>
      && Version(w[i], n) && Version(w[i + 1], n)
      && Link(w[i], cs[i], w[i + 1], i >= k)
      && CmdBounded(cs[i], n)
      && KeyOk(cs[i], w)
  }

  /** Commands `cs`, the first `k` of them done, lead through the versions `w`, the current one being the document. */
  ghost predicate History(d: Doc, cs: seq<Cmd>, k: nat, w: seq<Forest<Item>>) {
    && |w| == |cs| + 1 && k <= |cs| && w[k] == d.forest
    && Version(w[0], d.maxId)
    && (forall i :: Sound(d.maxId, cs, k, w, i))
  }

  lemma {:induction false} VersionAt(d: Doc, cs: seq<Cmd>, k: nat, w: seq<Forest<Item>>, i: nat)
    requires History(d, cs, k, w) && i < |w|
    ensures Version(w[i], d.maxId)
  {
    assert Sound(d.maxId, cs, k, w, i - 1);
  }

  // ---------------------------------------------------------------- single steps

  lemma {:induction false} UndoLink(a: Forest<Item>, c: Cmd, b: Forest<Item>, maxId: nat)
    requires Link(a, c, b, false) && Wf(a) && Wf(b)
    ensures var (d, c') := UndoCmd(Doc(b, maxId), c);
            d == Doc(a, maxId) && Link(a, c', b, true) && Mentions(c') == Mentions(c)
            && (c.Modify? ==> c' == c) && (c'.Modify? ==> c.Modify?) && (c.Add? <==> c'.Add?) && c'.item == c.item
  {
    match c
    case Add(_, _, _, _, _, _) =>
    case Move(_, _, _, _, _) =>
    case Modify(item, _, before, after) =>
      UpdateBack(a, item, after);
    case Toggle(item, wasActive, isActive) =>
      var was := ItemOf(a, item);
      UpdateBack(a, item, was.(active := isActive));
      assert was.(active := isActive).(active := wasActive) == was;
  }

  lemma {:induction false} RedoLink(a: Forest<Item>, c: Cmd, b: Forest<Item>, maxId: nat)
    requires Link(a, c, b, true) && !c.Add? && Wf(a)
    ensures RedoCmd(Doc(a, maxId), c) == (Doc(b, maxId), c)
    ensures Link(a, c, b, false)
  {
  }

  lemma {:induction false} SubBounded(f: Forest<Item>, x: int, n: nat)
    requires Bounded(f, n)
    ensures Bounded(Sub(f, x), n)
  {
    if f.Cons? {
      BoundedParts(f, n);
      SubBounded(f.kids, x, n);
      SubBounded(f.rest, x, n);
    }
  }

  /** Links survive an injective renaming of everything they mention. */
  lemma {:induction false} RenameLink(a: Forest<Item>, c: Cmd, b: Forest<Item>, c': Cmd, pairs: seq<(int, int)>, n: nat)
    requires Injective(pairs, n) && Version(a, n) && Version(b, n) && CmdBounded(c, n) && Subst(TOP, pairs) == TOP
    requires Link(a, c, b, false)
    requires c' == Renamed(c, pairs)
    ensures Link(Rename(a, pairs), c', Rename(b, pairs), false)
  {
    assert c.item in Mentions(c) && c.item <= n;
    match c
    case Add(item, parent, pos, snapshot, _, _) =>
      assert parent in Mentions(c);
      RenameMember(b, pairs, n, item);
      RenameRemove(b, item, pairs, n);
      RenameInsert(a, parent, pos, Sub(b, item), pairs, n);
      RenameErase(Sub(b, item), pairs);
      SubBounded(b, item, n);
      RenameMember(Sub(b, item), pairs, n, parent);
    case Move(item, oldParent, newParent, oldPos, newPos) =>
      assert oldParent in Mentions(c) && newParent in Mentions(c);
      RenameMember(a, pairs, n, item);
      RenameMember(b, pairs, n, item);
      RenameRemove(a, item, pairs, n);
      RenameRemove(b, item, pairs, n);
      var m := Remove(a, item);
      RemoveIds(a, item);
      assert Bounded(m, n);
      RenameInsert(m, oldParent, oldPos, Sub(a, item), pairs, n);
      RenameInsert(m, newParent, newPos, Sub(a, item), pairs, n);
      RenameMember(m, pairs, n, oldParent);
      RenameMember(m, pairs, n, newParent);
    case Modify(item, _, before, after) =>
      RenameUpdate(a, item, after, pairs, n);
    case Toggle(item, wasActive, isActive) =>
      RenameUpdate(a, item, ItemOf(a, item).(active := isActive), pairs, n);
  }

  /** A command with every stored id renamed at once. */
  function Renamed(c: Cmd, pairs: seq<(int, int)>): Cmd {
    match c
    case Add(item, parent, pos, snapshot, oldIds, changes) =>
      Add(Subst(item, pairs), Subst(parent, pairs), pos, snapshot, oldIds, changes)
    case Move(item, oldParent, newParent, oldPos, newPos) =>
      Move(Subst(item, pairs), Subst(oldParent, pairs), Subst(newParent, pairs), oldPos, newPos)
    case Modify(item, key, before, after) => Modify(Subst(item, pairs), key, before, after)
    case Toggle(item, wasActive, isActive) => Toggle(Subst(item, pairs), wasActive, isActive)
  }

  /** Walking a command once per pair renames every id it stores. */
  lemma {:induction false} RemapIsRename(c: Cmd, pairs: seq<(int, int)>)
    ensures RemapAll(c, pairs) == Renamed(c, pairs)
    decreases |pairs|
  {
    if pairs != [] { RemapIsRename(Remap(c, pairs[0]), pairs[1..]); }
  }

  // ---------------------------------------------------------------- steps of a history

  /** Undoing the latest done command goes back one version. */
  lemma {:induction false} UndoStep(d: Doc, cs: seq<Cmd>, k: nat, w: seq<Forest<Item>>)
    requires History(d, cs, k, w) && k > 0
    ensures var (d', c) := UndoCmd(d, cs[k - 1]);
            && d' == Doc(w[k - 1], d.maxId)
            && History(d', cs[k - 1 := c], k - 1, w)
            && Mentions(c) == Mentions(cs[k - 1]) && c.Add? == cs[k - 1].Add? && c.item == cs[k - 1].item
  {
    var (d', c) := UndoCmd(d, cs[k - 1]);
    assert Sound(d.maxId, cs, k, w, k - 1);
    UndoLink(w[k - 1], cs[k - 1], w[k], d.maxId);
    var cs', k' := cs[k - 1 := c], k - 1;
    forall i ensures Sound(d.maxId, cs', k', w, i) {
      assert Sound(d.maxId, cs, k, w, i);
    }
  }

  /** Redoing a command that adds nothing goes forward one version. */
  lemma {:induction false} RedoStep(d: Doc, cs: seq<Cmd>, k: nat, w: seq<Forest<Item>>)
    requires History(d, cs, k, w) && k < |cs| && !cs[k].Add?
    ensures RedoCmd(d, cs[k]) == (Doc(w[k + 1], d.maxId), cs[k])
    ensures History(Doc(w[k + 1], d.maxId), cs, k + 1, w)
  {
    assert Sound(d.maxId, cs, k, w, k);
    RedoLink(w[k], cs[k], w[k + 1], d.maxId);
    var k' := k + 1;
    forall i ensures Sound(d.maxId, cs, k', w, i) {
      assert Sound(d.maxId, cs, k, w, i);
    }
  }

  function RenameEach(w: seq<Forest<Item>>, pairs: seq<(int, int)>): (r: seq<Forest<Item>>)
    ensures |r| == |w| && forall i :: 0 <= i < |w| ==> r[i] == Rename(w[i], pairs)
  {
    if w == [] then [] else [Rename(w[0], pairs)] + RenameEach(w[1..], pairs)
  }

  lemma {:induction false} ChangesArePairs(olds: seq<int>, n: nat)
    requires forall x :: x in olds ==> x <= n
    ensures Changes(olds, After(n, |olds|)) == Pairs(olds, n)
  {
    if olds != [] {
      assert olds[0] in olds && forall x :: x in olds[1..] ==> x in olds;
      ChangesArePairs(olds[1..], n + 1);
      assert After(n, |olds|)[1..] == After(n + 1, |olds| - 1);
    }
  }

  /** The pairs for a tree and its rebuilt copy: they touch the tree alone, give it fresh ids, and lose nothing. */
  lemma {:induction false} TreePairs(t: Forest<Item>, n: nat)
    requires Wf(t) && Bounded(t, n) && Single(t)
    ensures var pairs := Pairs(Order(t), n);
            && Injective(pairs, n)
            && Rename(t, pairs) == Freshen(t, n)
            && Changes(Order(t), Order(Freshen(t, n))) == pairs
            && (forall x :: x !in Ids(t) ==> Subst(x, pairs) == x)
            && (forall x :: x in Ids(t) ==> n < Subst(x, pairs) <= n + Size(t))
            && Subst(t.id, pairs) == n + 1
  {
    var olds := Order(t);
    var pairs := Pairs(olds, n);
    OrderIds(t);
    OrderDistinct(t);
    Simultaneous(olds, n);
    OrderFreshen(t, n);
    ChangesArePairs(olds, n);
    assert Consecutive(t, pairs, n);
    RenameIsFreshen(t, pairs, n);
    forall x | x in Ids(t) ensures n < Subst(x, pairs) <= n + Size(t) {
      var i :| 0 <= i < |olds| && olds[i] == x;
    }
    assert olds[0] == t.id;
  }

  /** What redoing an addition rebuilds, and the pairs it records for it. */
  lemma {:induction false} RedoAddFacts(a: Forest<Item>, c: Cmd, b: Forest<Item>, n: nat)
    requires c.Add? && Link(a, c, b, true) && Version(a, n) && Version(b, n)
    ensures var t := Sub(b, c.item);
            var pairs := Pairs(Order(t), n);
            && Wf(t) && Bounded(t, n) && Ids(a) !! Ids(t) && Ids(b) == Ids(a) + Ids(t)
            && RedoCmd(Doc(a, n), c) == (Doc(Rename(b, pairs), n + Size(t)), c.(item := n + 1, changes := pairs))
  {
    var t := Sub(b, c.item);
    var pairs := Pairs(Order(t), n);
    RemoveIds(b, c.item);
    TreePairs(t, n);
    FreshenErased(t, n);
    FreshenShape(t, n);
    EraseFacts(t);
    RenameUntouched(a, pairs);
    InsertRenamed(a, c.parent, c.pos, t, pairs, n);
    assert Freshen(t, n).id == n + 1;
  }

  /** Recreating under an unrenamed parent is renaming what was there. */
  lemma {:induction false} InsertRenamed(a: Forest<Item>, parent: int, pos: nat, t: Forest<Item>,
                                         pairs: seq<(int, int)>, n: nat)
    requires Single(t) && Injective(pairs, n) && Bounded(a, n) && Bounded(t, n) && Ids(a) !! Ids(t)
    requires Rename(a, pairs) == a
    requires forall x :: x !in Ids(t) ==> Subst(x, pairs) == x
    ensures Rename(Insert(a, parent, pos, t), pairs) == Insert(a, parent, pos, Rename(t, pairs))
  {
    if parent in Ids(a) {
      RenameInsert(a, parent, pos, t, pairs, n);
    } else {
      RenameInsertHere(a, pos, t, pairs);
    }
  }

  lemma {:induction false} LinkMono(a: Forest<Item>, c: Cmd, b: Forest<Item>, undone: bool)
    requires Link(a, c, b, undone) && Wf(a) && Wf(b)
    ensures Ids(a) <= Ids(b)
  {
    match c
    case Add(item, _, _, _, _, _) => RemoveIds(b, item);
    case Move(item, _, _, _, _) => RemoveIds(a, item); RemoveIds(b, item);
    case Modify(item, _, _, after) => UpdateIds(a, item, after);
    case Toggle(item, _, isActive) => UpdateIds(a, item, ItemOf(a, item).(active := isActive));
  }

  /** Without deletions, later versions keep every node of earlier ones. */
  lemma {:induction false} Mono(d: Doc, cs: seq<Cmd>, k: nat, w: seq<Forest<Item>>, i: nat, j: nat)
    requires History(d, cs, k, w) && i <= j < |w|
    ensures Ids(w[i]) <= Ids(w[j])
  {
    if i < j {
      Mono(d, cs, k, w, i, j - 1);
      assert Sound(d.maxId, cs, k, w, j - 1);
      LinkMono(w[j - 1], cs[j - 1], w[j], j - 1 >= k);
    }
  }

  /** An undone addition stays ready to be redone under a renaming that leaves its nodes alone. */
  lemma {:induction false} RenameUndone(a: Forest<Item>, c: Cmd, b: Forest<Item>, pairs: seq<(int, int)>, n: nat)
    requires Injective(pairs, n) && Version(a, n) && Version(b, n) && CmdBounded(c, n) && Subst(TOP, pairs) == TOP
    requires Link(a, c, b, true)
    requires c.Add? ==> forall x :: x in Ids(Sub(b, c.item)) ==> Subst(x, pairs) == x
    ensures Link(Rename(a, pairs), Renamed(c, pairs), Rename(b, pairs), true)
  {
    RenameLink(a, c, b, Renamed(c, pairs), pairs, n);
    if c.Add? {
      assert c.item in Mentions(c);
      RenameRemove(b, c.item, pairs, n);
      RenameUntouched(Sub(b, c.item), pairs);
    }
  }

  lemma {:induction false} RenameVersion(f: Forest<Item>, pairs: seq<(int, int)>, n: nat, n': nat)
    requires Version(f, n) && Injective(pairs, n)
    requires forall x :: 0 < x <= n ==> 0 < Subst(x, pairs) <= n'
    ensures Version(Rename(f, pairs), n') && Erase(Rename(f, pairs)) == Erase(f)
  {
    RenameWf(f, pairs, n);
    RenameErase(f, pairs);
    forall y | y in Ids(Rename(f, pairs)) ensures 0 < y <= n' {
      var x := RenameFrom(f, pairs, y);
    }
  }

  lemma {:induction false} RenameBounded(c: Cmd, pairs: seq<(int, int)>, n: nat, n': nat)
    requires CmdBounded(c, n) && n <= n'
    requires forall x :: x <= n ==> Subst(x, pairs) <= n'
    ensures CmdBounded(Renamed(c, pairs), n')
  {
    assert c.item in Mentions(c);
    match c
    case Add(_, parent, _, _, _, _) => assert parent in Mentions(c);
    case Move(_, oldParent, newParent, _, _) => assert oldParent in Mentions(c) && newParent in Mentions(c);
    case Modify(_, _, _, _) =>
    case Toggle(_, _, _) =>
  }

  lemma {:induction false} NotRenamedTo(f: Forest<Item>, t: Forest<Item>, pairs: seq<(int, int)>, n: nat, key: int)
    requires (key !in Ids(f) || key in Ids(t)) && key <= n
    requires forall x :: x !in Ids(t) ==> Subst(x, pairs) == x
    requires forall x :: x in Ids(t) ==> Subst(x, pairs) > n
    ensures key !in Ids(Rename(f, pairs))
  {
    if f.Cons? {
      NotRenamedTo(f.kids, t, pairs, n, key);
      NotRenamedTo(f.rest, t, pairs, n, key);
    }
  }

  /** A retired merge key stays retired: its id is renamed away or never comes back. */
  lemma {:induction false} RenameKey(c: Cmd, w: seq<Forest<Item>>, t: Forest<Item>, pairs: seq<(int, int)>, n: nat)
    requires KeyOk(c, w) && CmdBounded(c, n)
    requires forall x :: x !in Ids(t) ==> Subst(x, pairs) == x
    requires forall x :: x in Ids(t) ==> Subst(x, pairs) > n
    ensures KeyOk(Renamed(c, pairs), RenameEach(w, pairs))
  {
    if c.Modify? && c.key.Some? && c.key.value.item != Subst(c.item, pairs) {
      var key := c.key.value.item;
      forall i ensures Lacks(RenameEach(w, pairs), i, key) {
        assert key in Ids(t) || Lacks(w, i, key);
        if 0 <= i < |w| { NotRenamedTo(w[i], t, pairs, n, key); }
      }
    }
  }

  /** A renaming that moves the nodes of `t` beyond `n` and nothing else. */
  ghost predicate MovesOnly(t: Forest<Item>, pairs: seq<(int, int)>, n: nat, n': nat) {
    && n <= n' && TOP !in Ids(t)
    && Injective(pairs, n)
    && (forall x :: x !in Ids(t) ==> Subst(x, pairs) == x)
    && (forall x :: x in Ids(t) ==> n < Subst(x, pairs) <= n')
  }

  lemma {:induction false} RenameLinkAt(d: Doc, cs: seq<Cmd>, k: nat, w: seq<Forest<Item>>, pairs: seq<(int, int)>,
                                        n': nat, i: nat)
    requires History(d, cs, k, w) && k < |cs| && cs[k].Add? && i < |cs|
    requires MovesOnly(Sub(w[k + 1], cs[k].item), pairs, d.maxId, n')
    ensures Link(Rename(w[i], pairs), Renamed(cs[i], pairs), Rename(w[i + 1], pairs), i >= k + 1)
  {
    var n := d.maxId;
    assert Sound(n, cs, k, w, i) && Sound(n, cs, k, w, k);
    if i <= k {
      RenameLink(w[i], cs[i], w[i + 1], Renamed(cs[i], pairs), pairs, n);
    } else {
      if cs[i].Add? {
        Mono(d, cs, k, w, k + 1, i);
        RemoveIds(w[i + 1], cs[i].item);
        RemoveIds(w[k + 1], cs[k].item);
      }
      RenameUndone(w[i], cs[i], w[i + 1], pairs, n);
    }
  }

  function RenamedEach(cs: seq<Cmd>, pairs: seq<(int, int)>): (r: seq<Cmd>)
    ensures |r| == |cs| && forall i :: 0 <= i < |cs| ==> r[i] == Renamed(cs[i], pairs)
  {
    if cs == [] then [] else [Renamed(cs[0], pairs)] + RenamedEach(cs[1..], pairs)
  }

  /** A whole history under the renaming of a rebuilt tree. */
  lemma {:induction false} RenameHistory(d: Doc, cs: seq<Cmd>, k: nat, w: seq<Forest<Item>>, pairs: seq<(int, int)>,
                                         n': nat)
    requires History(d, cs, k, w) && k < |cs| && cs[k].Add?
    requires MovesOnly(Sub(w[k + 1], cs[k].item), pairs, d.maxId, n')
    ensures History(Doc(Rename(w[k + 1], pairs), n'), RenamedEach(cs, pairs), k + 1, RenameEach(w, pairs))
  {
    var n, t := d.maxId, Sub(w[k + 1], cs[k].item);
    var w', cs', k' := RenameEach(w, pairs), RenamedEach(cs, pairs), k + 1;
    RenameVersion(w[0], pairs, n, n');
    forall i ensures Sound(n', cs', k', w', i) {
      if 0 <= i < |cs| {
        assert Sound(n, cs, k, w, i);
        RenameVersion(w[i], pairs, n, n');
        RenameVersion(w[i + 1], pairs, n, n');
        RenameBounded(cs[i], pairs, n, n');
        RenameKey(cs[i], w, t, pairs, n);
        RenameLinkAt(d, cs, k, w, pairs, n', i);
      }
    }
  }

  lemma {:induction false} SameButChanges(d: Doc, cs: seq<Cmd>, k: nat, w: seq<Forest<Item>>, pairs: seq<(int, int)>)
    requires History(d, cs, k, w) && k < |cs| && cs[k].Add?
    ensures History(d, cs[k := cs[k].(changes := pairs)], k, w)
  {
    var cs' := cs[k := cs[k].(changes := pairs)];
    assert Mentions(cs'[k]) == Mentions(cs[k]);
    forall i ensures Sound(d.maxId, cs', k, w, i) {
      assert Sound(d.maxId, cs, k, w, i);
    }
  }

  /** The tree command `cs[k]` added. */
  function Added(cs: seq<Cmd>, k: nat, w: seq<Forest<Item>>): Forest<Item>
    requires k < |cs| && k + 1 < |w|
  {
    Sub(w[k + 1], cs[k].item)
  }

  /** The undo stack after redoing the addition at `k`: new ids everywhere, the same versions otherwise. */
  lemma {:induction false} RedoAddStep(d: Doc, cs: seq<Cmd>, k: nat,
                                       w: seq<Forest<Item>>) returns (pairs: seq<(int, int)>)
    requires History(d, cs, k, w) && k < |cs| && cs[k].Add?
    ensures var (d', c) := RedoCmd(d, cs[k]);
            && c.Add? && c.changes == pairs && d.maxId <= d'.maxId
            && MovesOnly(Added(cs, k, w), pairs, d.maxId, d'.maxId)
            && RemapAll(c, pairs) == Renamed(cs[k].(changes := pairs), pairs)
            && History(d', RemapEntry(cs[k := c], pairs), k + 1, RenameEach(w, pairs))
  {
    var n, t := d.maxId, Added(cs, k, w);
    pairs := Pairs(Order(t), n);
    assert Sound(n, cs, k, w, k);
    RedoAddFacts(w[k], cs[k], w[k + 1], n);
    TreePairs(t, n);
    var (d', c) := RedoCmd(d, cs[k]);
    var cs0 := cs[k := cs[k].(changes := pairs)];
    SameButChanges(d, cs, k, w, pairs);
    RenameHistory(d, cs0, k, w, pairs, d'.maxId);
    forall i | 0 <= i < |cs| ensures RemapAll(cs[k := c][i], pairs) == Renamed(cs0[i], pairs) {
      RemapIsRename(cs[k := c][i], pairs);
      assert n + 1 !in Ids(t);
    }
    assert RemapEntry(cs[k := c], pairs) == RenamedEach(cs0, pairs);
    assert cs[k := c][k] == c && cs0[k] == cs[k].(changes := pairs);
  }
}
