/**
  The undo stack in the form the program has it: an object whose undo and redo
  change the unit's forest and rewrite the ids stored in every command, in loops
  over the stack.  Each method is proved to do what EditorCommands describes.
*/
module EditorUndoStack {
  import opened Common
  import opened Forests
  import opened EditorCommands
  import EditorRuns

  class UndoStack {
    var forest: Forest<Item>
    var maxId: nat
    var stack: seq<Entry>
    var index: nat

    ghost function View(): System
      reads this
    {
      System(Doc(forest, maxId), stack, index)
    }

    constructor (f: Forest<Item>, n: nat)
      ensures View() == System(Doc(f, n), [], 0)
    {
      forest, maxId, stack, index := f, n, [], 0;
    }

    /** Lists a tree's ids, each node before its children (collectIDs). */
    method CollectIds(f: Forest<Item>, found: seq<int>) returns (ids: seq<int>)
      ensures ids == found + Order(f)
      decreases f
    {
      ids := found;
      if f.Cons? {
        ids := ids + [f.id];
        ids := CollectIds(f.kids, ids);
        ids := CollectIds(f.rest, ids);
      }
    }

    /** Recreates a subtree from its snapshot, handing out new ids as it goes (importAliasFromXML). */
    method Recreate(snapshot: Forest<Item>) returns (f: Forest<Item>)
      modifies this`maxId
      ensures f == Freshen(snapshot, old(maxId)) && maxId == old(maxId) + Size(snapshot)
      decreases snapshot
    {
      match snapshot
      case Nil => f := Nil;
      case Cons(_, item, kids, rest) =>
        maxId := maxId + 1;
        var id := maxId;
        var newKids := Recreate(kids);
        var newRest := Recreate(rest);
        f := Cons(id, item, newKids, newRest);
    }

    method RecordChanges(olds: seq<int>, news: seq<int>) returns (changes: seq<(int, int)>)
      ensures changes == Changes(olds, news)
    {
      changes := [];
      if |olds| == |news| {
        var i := 0;
        while i < |olds|
          invariant 0 <= i <= |olds|
          invariant changes + Changes(olds[i..], news[i..]) == Changes(olds, news)
        {
          assert olds[i..][1..] == olds[i + 1..] && news[i..][1..] == news[i + 1..];
          if olds[i] != news[i] {
            changes := changes + [(olds[i], news[i])];
          }
          i := i + 1;
        }
      }
    }

    method UndoCommand(c: Cmd) returns (c': Cmd)
      modifies this`forest
      ensures (Doc(forest, maxId), c') == UndoCmd(Doc(old(forest), maxId), c)
    {
      c' := c;
      match c
      case Add(item, _, _, snapshot, _, _) =>
        c' := c'.(oldIds := []);
        if item in Ids(forest) {
          var tree := Sub(forest, item);
          var ids := CollectIds(tree, []);
          assert ids == Order(tree);
          c' := c'.(oldIds := ids);
          if snapshot.None? {
            c' := c'.(snapshot := Some(Erase(tree)));
          }
          forest := Remove(forest, item);
        }
      case Move(item, oldParent, _, oldPos, _) => forest := ReParent(forest, item, oldParent, oldPos);
      case Modify(item, _, before, _) =>
        if item in Ids(forest) { forest := Update(forest, item, before); }
      case Toggle(item, wasActive, _) =>
        if item in Ids(forest) { forest := Update(forest, item, ItemOf(forest, item).(active := wasActive)); }
    }

    method RedoCommand(c: Cmd) returns (c': Cmd)
      modifies this`forest, this`maxId
      ensures (Doc(forest, maxId), c') == RedoCmd(Doc(old(forest), old(maxId)), c)
    {
      c' := c;
      match c
      case Add(_, parent, pos, snapshot, oldIds, _) =>
        c' := c'.(changes := []);
        if snapshot.Some? && Single(snapshot.value) {
          FreshenShape(snapshot.value, maxId);
          var tree := Recreate(snapshot.value);
          forest := Insert(forest, parent, pos, tree);
          var newIds := CollectIds(tree, []);
          assert newIds == Order(tree);
          var changes := RecordChanges(oldIds, newIds);
          c' := Add(tree.id, parent, pos, snapshot, oldIds, changes);
        }
      case Move(item, _, newParent, _, newPos) => forest := ReParent(forest, item, newParent, newPos);
      case Modify(item, _, _, after) =>
        if item in Ids(forest) { forest := Update(forest, item, after); }
      case Toggle(item, _, isActive) =>
        if item in Ids(forest) { forest := Update(forest, item, ItemOf(forest, item).(active := isActive)); }
    }

    /** Walks every command of every entry once for one recreated item. */
    method RemapItemIDs(oldId: int, newId: int)
      modifies this`stack
      ensures stack == RemapStack(old(stack), [(oldId, newId)])
    {
      ghost var was, pair := stack, (oldId, newId);
      var i := 0;
      while i < |stack|
        invariant 0 <= i <= |stack| == |was|
        invariant forall k :: 0 <= k < i ==> stack[k] == RemapEntry(was[k], [pair])
        invariant forall k :: i <= k < |was| ==> stack[k] == was[k]
      {
        var e, j := stack[i], 0;
        while j < |e|
          invariant 0 <= j <= |e| == |was[i]|
          invariant forall k :: 0 <= k < j ==> e[k] == Remap(was[i][k], pair)
          invariant forall k :: j <= k < |e| ==> e[k] == was[i][k]
        {
          e := e[j := Remap(e[j], (oldId, newId))];
          j := j + 1;
        }
        assert e == RemapEntry(was[i], [pair]) by {
          forall k | 0 <= k < |e| ensures e[k] == RemapAll(was[i][k], [pair]) {
            assert [pair][1..] == [];
          }
        }
        stack := stack[i := e];
        i := i + 1;
      }
    }

    /** Undoes the commands of an entry, last to first. */
    method UndoEntry(entry: Entry) returns (done: Entry)
      modifies this`forest
      ensures (Doc(forest, maxId), done) == UndoSeq(Doc(old(forest), maxId), entry)
    {
      var e := entry;
      done := [];
      ghost var d0 := Doc(forest, maxId);
      assert UndoSeq(d0, e).1 + [] == UndoSeq(d0, e).1;
      while e != []
        invariant |e| + |done| == |entry|
        invariant (UndoSeq(Doc(forest, maxId), e).0, UndoSeq(Doc(forest, maxId), e).1 + done) == UndoSeq(d0, entry)
        decreases |e|
      {
        ghost var before := Doc(forest, maxId);
        var c := UndoCommand(e[|e| - 1]);
        ghost var (d1, c1) := UndoCmd(before, e[|e| - 1]);
        assert UndoSeq(before, e).1 + done == UndoSeq(d1, e[..|e| - 1]).1 + ([c1] + done);
        e, done := e[..|e| - 1], [c] + done;
      }
      assert [] + done == done;
    }

    method Undo()
      requires index <= |stack|
      modifies this
      ensures View() == EditorCommands.Undo(old(View()))
    {
      if index > 0 {
        var done := UndoEntry(stack[index - 1]);
        stack := stack[index - 1 := done];
        index := index - 1;
      }
    }

    /** Redoes the commands of an entry, first to last. */
    method RedoEntry(entry: Entry) returns (done: Entry)
      modifies this`forest, this`maxId
      ensures (Doc(forest, maxId), done) == RedoSeq(Doc(old(forest), old(maxId)), entry)
    {
      var e := entry;
      done := [];
      ghost var d0 := Doc(forest, maxId);
      assert [] + RedoSeq(d0, e).1 == RedoSeq(d0, e).1;
      while e != []
        invariant |e| + |done| == |entry|
        invariant (RedoSeq(Doc(forest, maxId), e).0, done + RedoSeq(Doc(forest, maxId), e).1) == RedoSeq(d0, entry)
        decreases |e|
      {
        ghost var before := Doc(forest, maxId);
        var c := RedoCommand(e[0]);
        ghost var (d1, c1) := RedoCmd(before, e[0]);
        assert done + RedoSeq(before, e).1 == (done + [c1]) + RedoSeq(d1, e[1..]).1;
        e, done := e[1..], done + [c];
      }
      assert done + [] == done;
    }

    method Redo()
      requires index <= |stack|
      modifies this
      ensures View() == EditorCommands.Redo(old(View()))
    {
      if index < |stack| {
        var done := RedoEntry(stack[index]);
        stack := stack[index := done];
        index := index + 1;
        if done != [] && done[0].Add? {
          ApplyChanges(done[0].changes);
        } else {
          EditorRuns.RemapNothing(stack);
        }
      }
    }

    /** One walk over the stack per recorded pair. */
    method ApplyChanges(changes: seq<(int, int)>)
      modifies this`stack
      ensures stack == RemapStack(old(stack), changes)
    {
      var left := changes;
      EditorRuns.RemapNothing(stack);
      while left != []
        invariant RemapStack(stack, left) == RemapStack(old(stack), changes)
        decreases |left|
      {
        RemapFirst(stack, left);
        RemapItemIDs(left[0].0, left[0].1);
        left := left[1..];
      }
      EditorRuns.RemapNothing(stack);
    }

    lemma {:induction false} RemapFirst(s: seq<Entry>, pairs: seq<(int, int)>)
      requires pairs != []
      ensures RemapStack(RemapStack(s, [pairs[0]]), pairs[1..]) == RemapStack(s, pairs)
    {
      forall i | 0 <= i < |s| ensures RemapEntry(RemapEntry(s[i], [pairs[0]]), pairs[1..]) == RemapEntry(s[i], pairs) {
        forall j | 0 <= j < |s[i]| ensures RemapAll(RemapAll(s[i][j], [pairs[0]]), pairs[1..])
          == RemapAll(s[i][j], pairs) {
          assert [pairs[0]][1..] == [];
        }
      }
    }

    /** Records what was just done to the document; whatever could have been redone is dropped. */
    method PushCommand(e: Entry)
      requires index <= |stack|
      modifies this
      ensures View() == Push(old(View()), old(View()).doc, e)
    {
      stack := stack[..index] + [e];
      index := index + 1;
    }

    /** Takes a later edit of the same property into the one on top, if it comes within the window (mergeWith). */
    method MergeWith(top: Cmd, other: Cmd, now: nat) returns (merged: bool, c: Cmd)
      requires other.Modify? && other.key.Some?
      ensures merged <==>
              top.Modify? && top.key.Some? && top.key.value.item == other.key.value.item
              && top.key.value.property == other.key.value.property && now - top.key.value.time <= MERGE_TIMEOUT
      ensures c == if merged then Merged(top, other.after, now) else top
    {
      merged, c := false, top;
      if !top.Modify? || top.key.None? { return; }
      var last, next := top.key.value, other.key.value;
      if last.item != next.item || last.property != next.property { return; }
      if now - last.time > MERGE_TIMEOUT { return; }
      c := top.(after := other.after);
      c := c.(key := Some(last.(time := now)));
      merged := true;
    }

    /** An edit of one property: done, then pushed or taken into the command on top. */
    method ModifyProperty(item: int, property: string, data: Item, now: nat)
      requires index <= |stack| && item in Ids(forest)
      modifies this
      ensures View() == EditProperty(old(View()), item, property, data, now)
    {
      var c := Modify(item, Some(Edit(item, property, now)), ItemOf(forest, item), data);
      forest := Update(forest, item, data);
      if index > 0 && |stack[index - 1]| == 1 {
        var merged, top := MergeWith(stack[index - 1][0], c, now);
        if merged {
          stack := stack[..index - 1] + [[top]];
          return;
        }
      }
      PushCommand([c]);
    }
  }
}
