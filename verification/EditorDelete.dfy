/**
  The deletion command (src/EditorDeleteItemCommand.cpp).  It holds an entry for
  every deleted item, those inside deleted folders included.  Undo rebuilds the
  items whose parents were not deleted, last to first, under new ids, and writes
  ids back into the entries by name and parent; redo removes the items again.
*/
module EditorDelete {
  import opened Forests
  import opened Renaming
  import opened EditorCommands
  import opened RestoreOrder

  function Key(x: Info): (string, int) {
    (x.name, x.parent)
  }

  /** The first entry with this name and parent, or the number of entries. */
  function FirstWith(items: seq<Info>, key: (string, int)): (k: nat)
    ensures k <= |items| && (k < |items| ==> Key(items[k]) == key) && forall j :: 0 <= j < k ==> Key(items[j]) != key
  {
    if items == [] || Key(items[0]) == key then 0
    else
      var k := FirstWith(items[1..], key);
      assert forall j :: 0 < j <= k ==> Key(items[j]) == Key(items[1..][j - 1]) || j == k;
      1 + k
  }

  /** Every entry under parent `from` goes under parent `to`. */
  function MoveAll(items: seq<Info>, from: int, to: int): (r: seq<Info>)
    ensures |r| == |items|
    ensures forall i :: 0 <= i < |items| ==>
              r[i] == if items[i].parent == from then items[i].(parent := to) else items[i]
  {
    seq(|items|, i requires 0 <= i < |items| => if items[i].parent == from then items[i].(parent := to) else items[i])
  }

  /** The first entry with this name under `from` goes under `to`. */
  function Adopt(items: seq<Info>, name: string, from: int, to: int): (r: seq<Info>)
    ensures |r| == |items|
  {
    var k := FirstWith(items, (name, from));
    if k < |items| then items[k := items[k].(parent := to)] else items
  }

  /** One such entry for every entry still to come that was under `from`. */
  function AdoptEach(items: seq<Info>, later: seq<Info>, from: int, to: int): (r: seq<Info>)
    ensures |r| == |items|
    decreases |later|
  {
    if later == [] then items
    else
      var adopted := if later[0].parent == from then Adopt(items, later[0].name, from, to) else items;
      AdoptEach(adopted, later[1..], from, to)
  }

  /**
    The nodes rebuilt inside a folder, matched with the entries by name and
    parent: the entry gets the node's id, and what was listed under the old id
    goes under the new one (updateChildIDs).
  */
  function RenameKids(items: seq<Info>, kids: Forest<Item>, parent: int): (r: seq<Info>)
    ensures |r| == |items|
    decreases kids
  {
    match kids
    case Nil => items
    case Cons(id, item, below, rest) =>
      var k := FirstWith(items, (item.name, parent));
      if k < |items| && items[k].item != id then
        RenameKids(RenameKids(MoveAll(items[k := items[k].(item := id)], items[k].item, id), below, id), rest, parent)
      else
        RenameKids(items, rest, parent)
  }

  /** The document, the command's entries and the id changes so far. */
  datatype Undoing = Undoing(doc: Doc, items: seq<Info>, changes: seq<(int, int)>)

  /** The entries once `x` is rebuilt as tree `t`; entry `k` is the one written. */
  function Written(items: seq<Info>, k: nat, x: Info, t: Forest<Item>, later: seq<Info>): (r: seq<Info>)
    requires k < |items| && Single(t)
    ensures |r| == |items|
  {
    var named := items[k := items[k].(item := t.id)];
    RenameKids(if t.id == x.item then named else AdoptEach(named, later, x.item, t.id), t.kids, t.id)
  }

  /**
    Rebuilding one item from its snapshot; a snapshot that holds no item, or an item
    without an entry, rebuilds nothing.
  */
  function Rebuilt(u: Undoing, x: Info, later: seq<Info>): (r: Undoing)
    ensures |r.items| == |u.items|
  {
    var k := FirstWith(u.items, Key(x));
    if k == |u.items| || !Single(x.snapshot) then u
    else
      var t := Freshen(x.snapshot, u.doc.maxId);
      Undoing(Doc(Insert(u.doc.forest, x.parent, x.pos, t), u.doc.maxId + Size(t)), Written(u.items, k, x, t, later),
              if t.id == x.item then u.changes else u.changes + [(x.item, t.id)])
  }

  /** The entries still to come once `x` is rebuilt: what was under it is under its new id. */
  function Later(u: Undoing, x: Info, rest: seq<Info>): (r: seq<Info>)
    ensures |r| == |rest|
  {
    if FirstWith(u.items, Key(x)) == |u.items| || !Single(x.snapshot) then rest
    else MoveAll(rest, x.item, Freshen(x.snapshot, u.doc.maxId).id)
  }

  /** The parent noted for an id before anything is rebuilt. */
  function NotedParent(listed: seq<Info>, id: int): int {
    if listed == [] then NO_PARENT
    else if listed[|listed| - 1].item == id then listed[|listed| - 1].parent
    else NotedParent(listed[..|listed| - 1], id)
  }

  /** The item comes back inside its parent. */
  predicate Skipped(listed: seq<Info>, id: int) {
    NotedParent(listed, id) != NO_PARENT && Deleted(listed, NotedParent(listed, id))
  }

  /** Undo, with `rest` of the sorted entries to go. */
  function Restored(u: Undoing, listed: seq<Info>, rest: seq<Info>): (r: Undoing)
    ensures |r.items| == |u.items|
    decreases |rest|
  {
    if rest == [] then u
    else if Skipped(listed, rest[0].item) then Restored(u, listed, rest[1..])
    else Restored(Rebuilt(u, rest[0], rest[1..]), listed, Later(u, rest[0], rest[1..]))
  }

  /** Redo: every listed item that still carries its name goes, unless it goes with its parent. */
  function Redone(f: Forest<Item>, all: seq<Info>, items: seq<Info>): Forest<Item>
    decreases |items|
  {
    if items == [] then f
    else
      var x := items[0];
      var stays := !IsRoot(all, x) || x.item !in Ids(f) || Sub(f, x.item).item.name != x.name;
      Redone(if stays then f else Remove(f, x.item), all, items[1..])
  }

  /** The entries under a renaming of ids, as the stack's walk over the id changes leaves them (remapItemID). */
  function Remapped(items: seq<Info>, pairs: seq<(int, int)>): (r: seq<Info>)
    ensures |r| == |items|
    ensures forall i :: 0 <= i < |items| ==>
              r[i] == items[i].(item := Subst(items[i].item, pairs), parent := Subst(items[i].parent, pairs))
  {
    seq(|items|, i requires 0 <= i < |items| =>
      items[i].(item := Subst(items[i].item, pairs), parent := Subst(items[i].parent, pairs)))
  }

  // ---------------------------------------------------------------- the command itself

  lemma {:induction false} NotedLast(listed: seq<Info>, k: nat, id: int)
    requires k < |listed|
    ensures NotedParent(listed[..k + 1], id)
         == if listed[k].item == id then listed[k].parent else NotedParent(listed[..k], id)
  {
    assert listed[..k + 1][..k] == listed[..k];
  }

  lemma {:induction false} NothingMoves(items: seq<Info>, id: int)
    ensures MoveAll(items, id, id) == items
  {
  }

  lemma {:induction false} SameItems(u: Undoing, x: Info, rest: seq<Info>)
    ensures forall i :: 0 <= i < |rest| ==> Later(u, x, rest)[i].item == rest[i].item
  {
  }

  lemma {:induction false} SubstOne(x: int, pair: (int, int))
    ensures Subst(x, [pair]) == if x == pair.0 then pair.1 else x
  {
    assert [pair][1..] == [];
  }

  /** One walk per id change is one walk for all of them. */
  lemma {:induction false} RemappedFirst(items: seq<Info>, pairs: seq<(int, int)>)
    requires pairs != []
    ensures Remapped(Remapped(items, [pairs[0]]), pairs[1..]) == Remapped(items, pairs)
  {
    forall i | 0 <= i < |items| ensures Remapped(Remapped(items, [pairs[0]]), pairs[1..])[i]
      == Remapped(items, pairs)[i] {
      SubstOne(items[i].item, pairs[0]);
      SubstOne(items[i].parent, pairs[0]);
    }
  }

  /** The command, whose entries undo rewrites in place. */
  class DeleteCommand {
    var items: seq<Info>
    var changes: seq<(int, int)>

    constructor (deleted: seq<Info>)
      ensures items == deleted && changes == []
    {
      items := deleted;
      changes := [];
    }

    /** Looks an entry up by name and parent. */
    method Find(key: (string, int)) returns (k: nat)
      ensures k == FirstWith(items, key)
    {
      k := 0;
      while k < |items| && Key(items[k]) != key
        invariant 0 <= k <= |items|
        invariant forall j :: 0 <= j < k ==> Key(items[j]) != key
      {
        k := k + 1;
      }
      ghost var first := FirstWith(items, key);
      assert !(k < first) && !(first < k);
    }

    /** Updates the entries still to come that were under a rebuilt item, and with each one of the command's own. */
    method AdoptLater(later: seq<Info>, from: int, to: int) returns (r: seq<Info>)
      modifies `items
      ensures items == AdoptEach(old(items), later, from, to) && r == MoveAll(later, from, to)
    {
      r := later;
      var j := 0;
      assert later[0..] == later;
      while j < |later|
        invariant 0 <= j <= |later| == |r|
        invariant AdoptEach(items, later[j..], from, to) == AdoptEach(old(items), later, from, to)
        invariant forall i :: 0 <= i < j ==> r[i] == MoveAll(later, from, to)[i]
        invariant forall i :: j <= i < |later| ==> r[i] == later[i]
      {
        assert later[j..][1..] == later[j + 1..];
        if r[j].parent == from {
          var k := Find((r[j].name, from));
          if k < |items| {
            items := items[k := items[k].(parent := to)];
          }
          r := r[j := r[j].(parent := to)];
        }
        j := j + 1;
      }
    }

    method MoveChildren(from: int, to: int)
      modifies `items
      ensures items == MoveAll(old(items), from, to)
    {
      var i := 0;
      while i < |items|
        invariant 0 <= i <= |items| == |old(items)|
        invariant forall j :: 0 <= j < i ==> items[j] == MoveAll(old(items), from, to)[j]
        invariant forall j :: i <= j < |items| ==> items[j] == old(items)[j]
      {
        if items[i].parent == from {
          items := items[i := items[i].(parent := to)];
        }
        i := i + 1;
      }
    }

    method UpdateChildIDs(kids: Forest<Item>, parent: int)
      modifies `items
      ensures items == RenameKids(old(items), kids, parent)
      decreases kids
    {
      if kids.Cons? {
        var k := Find((kids.item.name, parent));
        if k < |items| && items[k].item != kids.id {
          var was := items[k].item;
          items := items[k := items[k].(item := kids.id)];
          MoveChildren(was, kids.id);
          UpdateChildIDs(kids.kids, kids.id);
        }
        UpdateChildIDs(kids.rest, parent);
      }
    }

    method Rebuild(d: Doc, x: Info, rest: seq<Info>) returns (r: Doc, later: seq<Info>)
      modifies this
      ensures Undoing(r, items, changes) == Rebuilt(Undoing(d, old(items), old(changes)), x, rest)
      ensures later == Later(Undoing(d, old(items), old(changes)), x, rest)
    {
      r, later := d, rest;
      var k := Find(Key(x));
      if k < |items| && Single(x.snapshot) {
        var t := Freshen(x.snapshot, d.maxId);
        r := Doc(Insert(d.forest, x.parent, x.pos, t), d.maxId + Size(t));
        items := items[k := items[k].(item := t.id)];
        NothingMoves(rest, t.id);
        if t.id != x.item {
          changes := changes + [(x.item, t.id)];
          later := AdoptLater(rest, x.item, t.id);
        }
        UpdateChildIDs(t.kids, t.id);
      }
    }

    /** Rebuilds the listed items, except those that come back inside a listed parent. */
    method Undo(d: Doc) returns (r: Doc, ghost order: seq<Info>)
      modifies this
      ensures Ordered(old(items), order)
      ensures Undoing(r, items, changes) == Restored(Undoing(d, old(items), []), order, order)
    {
      r := d;
      changes := [];
      var sorted := Sort(items);
      order := sorted;
      var ids, parents := NoteParents(sorted);
      while sorted != []
        invariant Restored(Undoing(r, items, changes), order, sorted)
                  == Restored(Undoing(d, old(items), []), order, order)
        invariant forall i :: 0 <= i < |sorted| ==> sorted[i].item in ids
        decreases |sorted|
      {
        var x, rest := sorted[0], sorted[1..];
        var p := parents[x.item];
        if p != NO_PARENT && p in ids {
          sorted := rest;
        } else {
          SameItems(Undoing(r, items, changes), x, rest);
          r, sorted := Rebuild(r, x, rest);
        }
      }
    }

    /** Notes which ids are listed, and the parent of each, before anything is rebuilt. */
    method NoteParents(sorted: seq<Info>) returns (ids: set<int>, parents: map<int, int>)
      ensures forall id :: id in ids <==> Deleted(sorted, id)
      ensures parents.Keys == ids && forall id :: id in ids ==> parents[id] == NotedParent(sorted, id)
      ensures forall i :: 0 <= i < |sorted| ==> sorted[i].item in ids
    {
      ids, parents := {}, map[];
      var i := 0;
      while i < |sorted|
        invariant 0 <= i <= |sorted|
        invariant forall id :: id in ids <==> exists j :: 0 <= j < i && sorted[j].item == id
        invariant parents.Keys == ids && forall id :: id in ids ==> parents[id] == NotedParent(sorted[..i], id)
      {
        forall id ensures NotedParent(sorted[..i + 1], id)
                       == if sorted[i].item == id then sorted[i].parent else NotedParent(sorted[..i], id)
        {
          NotedLast(sorted, i, id);
        }
        ids := ids + {sorted[i].item};
        parents := parents[sorted[i].item := sorted[i].parent];
        i := i + 1;
      }
      assert sorted[..i] == sorted;
    }

    /** Removes the listed items again. */
    method Redo(d: Doc) returns (r: Doc)
      ensures r == d.(forest := Redone(d.forest, items, items))
    {
      r := d;
      var i := 0;
      assert items[0..] == items;
      while i < |items|
        invariant 0 <= i <= |items| && r.maxId == d.maxId
        invariant Redone(r.forest, items, items[i..]) == Redone(d.forest, items, items)
      {
        var x := items[i];
        assert items[i..][1..] == items[i + 1..];
        if IsRoot(items, x) && x.item in Ids(r.forest) && Sub(r.forest, x.item).item.name == x.name {
          r := r.(forest := Remove(r.forest, x.item));
        }
        i := i + 1;
      }
    }

    /** One id change, as the undo stack passes it to every command. */
    method RemapItemID(oldId: int, newId: int)
      modifies `items
      ensures items == Remapped(old(items), [(oldId, newId)])
    {
      var i := 0;
      while i < |items|
        invariant 0 <= i <= |items| == |old(items)|
        invariant forall j :: 0 <= j < i ==> items[j] == Remapped(old(items), [(oldId, newId)])[j]
        invariant forall j :: i <= j < |items| ==> items[j] == old(items)[j]
      {
        var x := items[i];
        SubstOne(x.item, (oldId, newId));
        SubstOne(x.parent, (oldId, newId));
        if x.item == oldId { x := x.(item := newId); }
        if x.parent == oldId { x := x.(parent := newId); }
        items := items[i := x];
        i := i + 1;
      }
    }

    /** What the undo stack does once the command is undone: a walk over this command too for every id change. */
    method FollowChanges()
      modifies `items
      ensures items == Remapped(old(items), changes)
    {
      var left := changes;
      while left != []
        invariant Remapped(items, left) == Remapped(old(items), changes)
        decreases |left|
      {
        RemappedFirst(items, left);
        RemapItemID(left[0].0, left[0].1);
        left := left[1..];
      }
      assert items == Remapped(items, []);
    }
  }
}
