/**
  The editor's undoable commands and their stack, on one kind of item
  (src/EditorAddItemCommand.cpp, src/EditorMoveItemCommand.cpp,
  src/EditorModifyPropertyCommand.cpp, src/EditorToggleActiveCommand.cpp,
  src/EditorUndoStack.cpp).  Undoing an addition destroys nodes and redoing it
  rebuilds them under new ids, which the stack then writes into every command.
*/
module EditorCommands {
  import opened Common
  import opened Forests

  datatype Item = Item(name: string, active: bool, body: string)

  /** The unit's forest and the largest id it ever handed out. */
  datatype Doc = Doc(forest: Forest<Item>, maxId: nat)

  /** The parent id that stands for the top level. */
  const TOP: int := -1

  /** Milliseconds within which an edit of the same property folds into the one before it. */
  const MERGE_TIMEOUT: nat := 500

  /** What marks an edit of one property: the id that its item had then, the property, and when it was last made. */
  datatype Edit = Edit(item: int, property: string, time: nat)

  datatype Cmd =
    | Add(item: int, parent: int, pos: nat, snapshot: Option<Forest<Item>>, oldIds: seq<int>, changes: seq<(int, int)>)
    | Move(item: int, oldParent: int, newParent: int, oldPos: nat, newPos: nat)
    | Modify(item: int, key: Option<Edit>, before: Item, after: Item)
    | Toggle(item: int, wasActive: bool, isActive: bool)

  /** A command on the stack: a single one, or a macro of several. */
  type Entry = seq<Cmd>

  datatype System = System(doc: Doc, stack: seq<Entry>, index: nat)

  // ---------------------------------------------------------------- single commands

  function SetItem(f: Forest<Item>, item: int, data: Item): Forest<Item> {
    if item in Ids(f) then Update(f, item, data) else f
  }

  function SetActive(f: Forest<Item>, item: int, active: bool): Forest<Item> {
    if item in Ids(f) then Update(f, item, ItemOf(f, item).(active := active)) else f
  }

  function UndoCmd(d: Doc, c: Cmd): (Doc, Cmd) {
    match c
    case Add(item, _, _, snapshot, _, _) =>
      if item in Ids(d.forest) then
        var t := Sub(d.forest, item);
        (d.(forest := Remove(d.forest, item)),
         c.(oldIds := Order(t), snapshot := if snapshot.None? then Some(Erase(t)) else snapshot))
      else (d, c.(oldIds := []))
    case Move(item, oldParent, _, oldPos, _) => (d.(forest := ReParent(d.forest, item, oldParent, oldPos)), c)
    case Modify(item, _, before, _) => (d.(forest := SetItem(d.forest, item, before)), c)
    case Toggle(item, wasActive, _) => (d.(forest := SetActive(d.forest, item, wasActive)), c)
  }

  /** The recorded pairs: nodes whose id changed, if the two listings are equally long. */
  function Changes(olds: seq<int>, news: seq<int>): seq<(int, int)> {
    if |olds| != |news| || olds == [] then []
    else (if olds[0] != news[0] then [(olds[0], news[0])] else []) + Changes(olds[1..], news[1..])
  }

  function RedoCmd(d: Doc, c: Cmd): (Doc, Cmd) {
    match c
    case Add(item, parent, pos, snapshot, oldIds, _) =>
      if snapshot.None? || !Single(snapshot.value) then (d, c.(changes := []))
      else
        var t := Freshen(snapshot.value, d.maxId);
        (Doc(Insert(d.forest, parent, pos, t), d.maxId + Size(t)),
         c.(item := t.id, changes := Changes(oldIds, Order(t))))
    case Move(item, _, newParent, _, newPos) => (d.(forest := ReParent(d.forest, item, newParent, newPos)), c)
    case Modify(item, _, _, after) => (d.(forest := SetItem(d.forest, item, after)), c)
    case Toggle(item, _, isActive) => (d.(forest := SetActive(d.forest, item, isActive)), c)
  }

  /** remapItemID of each kind of command. */
  function Remap(c: Cmd, pair: (int, int)): Cmd {
    var to := (x: int) => if x == pair.0 then pair.1 else x;
    match c
    case Add(item, parent, pos, snapshot, oldIds, changes) => Add(to(item), to(parent), pos, snapshot, oldIds, changes)
    case Move(item, oldParent, newParent, oldPos, newPos) => Move(to(item), to(oldParent), to(newParent), oldPos,
        newPos)
    case Modify(item, key, before, after) => Modify(to(item), key, before, after)
    case Toggle(item, wasActive, isActive) => Toggle(to(item), wasActive, isActive)
  }

  function RemapAll(c: Cmd, pairs: seq<(int, int)>): Cmd
    decreases |pairs|
  {
    if pairs == [] then c else RemapAll(Remap(c, pairs[0]), pairs[1..])
  }

  // ---------------------------------------------------------------- entries and the stack

  /** A macro undoes its children last to first. */
  function UndoSeq(d: Doc, e: Entry): (r: (Doc, Entry))
    ensures |r.1| == |e|
    decreases |e|
  {
    if e == [] then (d, e)
    else
      var (d1, c) := UndoCmd(d, e[|e| - 1]);
      var (d2, rest) := UndoSeq(d1, e[..|e| - 1]);
      (d2, rest + [c])
  }

  /** A macro redoes its children first to last. */
  function RedoSeq(d: Doc, e: Entry): (r: (Doc, Entry))
    ensures |r.1| == |e|
    decreases |e|
  {
    if e == [] then (d, e)
    else
      var (d1, c) := RedoCmd(d, e[0]);
      var (d2, rest) := RedoSeq(d1, e[1..]);
      (d2, [c] + rest)
  }

  function RemapEntry(e: Entry, pairs: seq<(int, int)>): (r: Entry)
    ensures |r| == |e| && forall i :: 0 <= i < |e| ==> r[i] == RemapAll(e[i], pairs)
  {
    if e == [] then [] else [RemapAll(e[0], pairs)] + RemapEntry(e[1..], pairs)
  }

  function RemapStack(stack: seq<Entry>, pairs: seq<(int, int)>): (r: seq<Entry>)
    ensures |r| == |stack| && forall i :: 0 <= i < |stack| ==> r[i] == RemapEntry(stack[i], pairs)
  {
    if stack == [] then [] else [RemapEntry(stack[0], pairs)] + RemapStack(stack[1..], pairs)
  }

  function Undo(s: System): System
    requires s.index <= |s.stack|
  {
    if s.index == 0 then s
    else
      var (d, e) := UndoSeq(s.doc, s.stack[s.index - 1]);
      System(d, s.stack[s.index - 1 := e], s.index - 1)
  }

  /** The pairs the stack picks up after a redo: those of the command itself, or of a macro's first child. */
  function PickedUp(e: Entry): seq<(int, int)> {
    if e != [] && e[0].Add? then e[0].changes else []
  }

  function Redo(s: System): System
    requires s.index <= |s.stack|
  {
    if s.index == |s.stack| then s
    else
      var (d, e) := RedoSeq(s.doc, s.stack[s.index]);
      System(d, RemapStack(s.stack[s.index := e], PickedUp(e)), s.index + 1)
  }

  /** Pushing drops what could have been redone. */
  function Push(s: System, d: Doc, e: Entry): System
    requires s.index <= |s.stack|
  {
    System(d, s.stack[..s.index] + [e], s.index + 1)
  }

  // ---------------------------------------------------------------- what the user does

  datatype Action =
    | NewItem(parent: int, pos: nat, tree: Forest<Item>)
    | MoveItem(item: int, newParent: int, newPos: nat)
    | EditItem(item: int, data: Item)
    | SwitchItem(item: int, on: bool)

  predicate Possible(d: Doc, a: Action) {
    match a
    case NewItem(parent, _, tree) => (parent == TOP || parent in Ids(d.forest)) && Single(tree)
    case MoveItem(item, newParent, _) =>
      item in Ids(d.forest) && (newParent == TOP || newParent in Ids(Remove(d.forest, item)))
    case EditItem(item, _) => item in Ids(d.forest)
    case SwitchItem(item, _) => item in Ids(d.forest)
  }

  /** The action done, and the command that records it. */
  function Perform(d: Doc, a: Action): (Doc, Cmd)
    requires Possible(d, a)
  {
    match a
    case NewItem(parent, pos, tree) =>
      var t := Freshen(tree, d.maxId);
      (Doc(Insert(d.forest, parent, pos, t), d.maxId + Size(t)), Add(t.id, parent, pos, None, [], []))
    case MoveItem(item, newParent, newPos) =>
      (d.(forest := ReParent(d.forest, item, newParent, newPos)),
       Move(item, ParentOf(d.forest, item, TOP), newParent, PositionOf(d.forest, item), newPos))
    case EditItem(item, data) =>
      (d.(forest := Update(d.forest, item, data)), Modify(item, None, ItemOf(d.forest, item), data))
    case SwitchItem(item, on) =>
      (d.(forest := SetActive(d.forest, item, on)), Toggle(item, ItemOf(d.forest, item).active, on))
  }

  /** The ids a command stores. */
  function Mentions(c: Cmd): set<int> {
    match c
    case Add(item, parent, _, _, _, _) => {item, parent}
    case Move(item, oldParent, newParent, _, _) => {item, oldParent, newParent}
    case Modify(item, _, _, _) => {item}
    case Toggle(item, _, _) => {item}
  }

  /** Several actions in a row, and the macro that records them. */
  function PerformAll(d: Doc, actions: seq<Action>): Option<(Doc, Entry)>
    decreases |actions|
  {
    if actions == [] then Some((d, []))
    else if !Possible(d, actions[0]) then None
    else
      var (d1, c) := Perform(d, actions[0]);
      match PerformAll(d1, actions[1..])
      case None => None
      case Some((d2, e)) => Some((d2, [c] + e))
  }

  /** The command stores none of these ids. */
  predicate Avoids(c: Cmd, ids: seq<int>) {
    Mentions(c) !! set x | x in ids
  }

  predicate AllAvoid(cs: seq<Cmd>, ids: seq<int>) {
    forall i :: 0 <= i < |cs| ==> Avoids(cs[i], ids)
  }

  /**
    Redoing entry `k` is safe when no other command of the entry stores an id of a
    tree it adds (those listed when the addition was undone), and no command at all
    stores an id of a tree that a later command of the entry adds.
  */
  predicate RedoSafe(stack: seq<Entry>, k: nat)
    requires k < |stack|
  {
    forall i :: 0 <= i < |stack[k]| && stack[k][i].Add? ==>
      && (forall j :: 0 <= j < |stack[k]| && j != i ==> Avoids(stack[k][j], stack[k][i].oldIds))
      && (i > 0 ==> forall m :: 0 <= m < |stack| && m != k ==> AllAvoid(stack[m], stack[k][i].oldIds))
  }

  /** An edit of one property may fold into the edit on top of the stack (mergeWith). */
  predicate Merges(s: System, item: int, property: string, now: nat)
    requires s.index <= |s.stack|
  {
    && s.index > 0 && |s.stack[s.index - 1]| == 1
    && var top := s.stack[s.index - 1][0];
       && top.Modify? && top.key.Some?
       && top.key.value.item == item && top.key.value.property == property
       && now - top.key.value.time <= MERGE_TIMEOUT
  }

  /** The command covering the edit on top and one more: the old state stays, and the time starts again. */
  function Merged(top: Cmd, data: Item, now: nat): Cmd
    requires top.Modify? && top.key.Some?
  {
    top.(after := data, key := Some(top.key.value.(time := now)))
  }

  function EditProperty(s: System, item: int, property: string, data: Item, now: nat): System
    requires s.index <= |s.stack| && item in Ids(s.doc.forest)
  {
    var d := s.doc.(forest := Update(s.doc.forest, item, data));
    if Merges(s, item, property, now) then
      System(d, s.stack[..s.index - 1] + [[Merged(s.stack[s.index - 1][0], data, now)]], s.index)
    else
      Push(s, d, [Modify(item, Some(Edit(item, property, now)), ItemOf(s.doc.forest, item), data)])
  }

  // ---------------------------------------------------------------- runs

  datatype Op =
    | Act(actions: seq<Action>)
    | Property(item: int, property: string, data: Item, now: nat)
    | UndoOp
    | RedoOp

  /**
    A plain list of document versions with a current position.  For each version after
    the first it notes which edit of one property made it, if one did.
  */
  datatype Reference = Reference(versions: seq<Forest<Item>>, edits: seq<Option<Edit>>, index: nat)

  predicate Positioned(r: Reference) {
    |r.versions| == |r.edits| + 1 && r.index <= |r.edits|
  }

  /** The current version was made by an edit of that property of that item, not longer ago than the window. */
  predicate Continues(r: Reference, item: int, property: string, now: nat)
    requires Positioned(r)
  {
    && r.index > 0 && r.edits[r.index - 1].Some?
    && var last := r.edits[r.index - 1].value;
       last.item == item && last.property == property && now <= last.time + MERGE_TIMEOUT
  }

  /** The list with the document as the version after the first `kept`, and nothing after it. */
  function Noted(r: Reference, kept: nat, version: Forest<Item>, edit: Option<Edit>): (r': Reference)
    requires Positioned(r) && 0 < kept <= |r.versions|
    ensures Positioned(r')
  {
    Reference(r.versions[..kept] + [version], r.edits[..kept - 1] + [edit], kept)
  }

  /** One operation on the editor and on the list of versions; impossible operations do nothing. */
  function Step(s: System, r: Reference, op: Op): (b: (System, Reference))
    requires s.index <= |s.stack| && Positioned(r)
    ensures b.0.index <= |b.0.stack| && Positioned(b.1)
  {
    match op
    case Act(actions) =>
      (match PerformAll(s.doc, actions)
       case Some((d, e)) => if e == [] then (s, r) else (Push(s, d, e), Noted(r, r.index + 1, Erase(d.forest), None))
       case None => (s, r))
    case Property(item, property, data, now) =>
      if item !in Ids(s.doc.forest) then (s, r)
      else
        var kept := if Continues(r, item, property, now) then r.index else r.index + 1;
        (EditProperty(s, item, property, data, now),
         Noted(r, kept, Erase(Update(s.doc.forest, item, data)), Some(Edit(item, property, now))))
    case UndoOp => (Undo(s), if r.index > 0 then r.(index := r.index - 1) else r)
    case RedoOp => (Redo(s), if r.index < |r.edits| then r.(index := r.index + 1) else r)
  }

  /** Anything may be done at any time, but for redoing an entry that is not safe to redo. */
  predicate Allowed(s: System, op: Op) {
    op.RedoOp? && s.index < |s.stack| ==> RedoSafe(s.stack, s.index)
  }
}
