/**
  The undo stack proper: entries of one or several commands, and the theorem that
  every run of the editor follows the plain list of versions.
*/
module EditorRuns {
  import opened Common
  import opened Forests
  import opened Renaming
  import opened EditorCommands
  import opened EditorHistory

  // ---------------------------------------------------------------- entries as stretches of one history

  function Flat(stack: seq<Entry>): seq<Cmd> {
    if stack == [] then [] else stack[0] + Flat(stack[1..])
  }

  /** The number of commands before entry `i`. */
  function Offset(stack: seq<Entry>, i: nat): nat
    requires i <= |stack|
  {
    if i == 0 then 0 else Offset(stack, i - 1) + |stack[i - 1]|
  }

  lemma {:induction false} FlatConcat(a: seq<Entry>, b: seq<Entry>)
    ensures Flat(a + b) == Flat(a) + Flat(b)
  {
    if a == [] {
      assert a + b == b;
    } else {
      calc {
        Flat(a + b);
        { assert (a + b)[0] == a[0] && (a + b)[1..] == a[1..] + b; }
        a[0] + Flat(a[1..] + b);
        { FlatConcat(a[1..], b); }
        a[0] + (Flat(a[1..]) + Flat(b));
        Flat(a) + Flat(b);
      }
    }
  }

  lemma {:induction false} OffsetIsLength(stack: seq<Entry>, i: nat)
    requires i <= |stack|
    ensures Offset(stack, i) == |Flat(stack[..i])|
  {
    if i == 0 {
      assert stack[..0] == [];
    } else {
      OffsetIsLength(stack, i - 1);
      FlatConcat(stack[..i - 1], [stack[i - 1]]);
      assert stack[..i] == stack[..i - 1] + [stack[i - 1]];
      assert Flat([stack[i - 1]]) == stack[i - 1] + Flat([stack[i - 1]][1..]);
    }
  }

  lemma {:induction false} FlatSplit(stack: seq<Entry>, i: nat)
    requires i < |stack|
    ensures Flat(stack) == Flat(stack[..i]) + stack[i] + Flat(stack[i + 1..])
    ensures |Flat(stack[..i])| == Offset(stack, i)
  {
    FlatConcat(stack[..i], stack[i..]);
    assert stack == stack[..i] + stack[i..];
    assert stack[i..][1..] == stack[i + 1..];
    OffsetIsLength(stack, i);
  }

  lemma {:induction false} OffsetMonotone(stack: seq<Entry>, i: nat, j: nat)
    requires i <= j <= |stack|
    ensures Offset(stack, i) <= Offset(stack, j)
  {
    if i < j { OffsetMonotone(stack, i, j - 1); }
  }

  /** Entries of the same lengths begin at the same places. */
  lemma {:induction false} SameOffsets(stack: seq<Entry>, stack': seq<Entry>, i: nat)
    requires i <= |stack| && i <= |stack'| && forall j :: 0 <= j < i ==> |stack[j]| == |stack'[j]|
    ensures Offset(stack, i) == Offset(stack', i)
  {
    if i > 0 { SameOffsets(stack, stack', i - 1); }
  }

  lemma {:induction false} RemapFlat(stack: seq<Entry>, pairs: seq<(int, int)>)
    ensures Flat(RemapStack(stack, pairs)) == RemapEntry(Flat(stack), pairs)
  {
    if stack != [] {
      RemapFlat(stack[1..], pairs);
      RemapConcat(stack[0], Flat(stack[1..]), pairs);
    }
  }

  lemma {:induction false} RemapConcat(a: Entry, b: Entry, pairs: seq<(int, int)>)
    ensures RemapEntry(a + b, pairs) == RemapEntry(a, pairs) + RemapEntry(b, pairs)
  {
  }

  // ---------------------------------------------------------------- a whole entry at a time

  lemma {:induction false} LastReplaced(a: Entry, e: Entry, b: Entry, c: Cmd)
    requires e != []
    ensures var k := |a| + |e| - 1;
            (a + e + b)[k] == e[|e| - 1] && (a + e + b)[k := c] == a + e[..|e| - 1] + ([c] + b)
  {
  }

  lemma {:induction false} Shift(a: Entry, e: Entry, c: Cmd, b: Entry)
    ensures a + e + ([c] + b) == a + (e + [c]) + b
  {
  }

  lemma {:induction false} UndoSeqKeeps(d: Doc, a: Entry, e: Entry, b: Entry, w: seq<Forest<Item>>)
    requires History(d, a + e + b, |a| + |e|, w)
    ensures var (d', e') := UndoSeq(d, e);
            && d' == Doc(w[|a|], d.maxId)
            && History(d', a + e' + b, |a|, w)
    decreases |e|
  {
    if e == [] {
      assert a + e + b == a + b;
    } else {
      var n := |e| - 1;
      var (d1, c) := UndoCmd(d, e[n]);
      LastReplaced(a, e, b, c);
      UndoStep(d, a + e + b, |a| + |e|, w);
      UndoSeqKeeps(d1, a, e[..n], [c] + b, w);
      var (d2, rest) := UndoSeq(d1, e[..n]);
      Shift(a, rest, c, b);
    }
  }

  // ---------------------------------------------------------------- redoing one command

  lemma {:induction false} RemapUntouched(c: Cmd, pairs: seq<(int, int)>)
    requires forall x :: x in Mentions(c) ==> Subst(x, pairs) == x
    ensures RemapAll(c, pairs) == c
  {
    RemapIsRename(c, pairs);
    assert c.item in Mentions(c);
    match c
    case Add(_, parent, _, _, _, _) => assert parent in Mentions(c);
    case Move(_, oldParent, newParent, _, _) => assert oldParent in Mentions(c) && newParent in Mentions(c);
    case Modify(_, _, _, _) =>
    case Toggle(_, _, _) =>
  }

  /** Versions that differ in ids at most. */
  ghost predicate SameVersions(w: seq<Forest<Item>>, w': seq<Forest<Item>>) {
    |w| == |w'| && forall i :: 0 <= i < |w| ==> Erase(w'[i]) == Erase(w[i])
  }

  lemma {:induction false} RenamedVersions(w: seq<Forest<Item>>, pairs: seq<(int, int)>)
    ensures SameVersions(w, RenameEach(w, pairs))
  {
    forall i | 0 <= i < |w| ensures Erase(RenameEach(w, pairs)[i]) == Erase(w[i]) { RenameErase(w[i], pairs); }
  }

  /** What redoing leaves of a command: the ids it stores are the old ones or new ones. */
  predicate Renewed(c: Cmd, c': Cmd, n: nat) {
    c'.Add? == c.Add? && (!c.Add? ==> c' == c) && (c.Add? ==> c'.oldIds == c.oldIds)
    && forall x :: x in Mentions(c') ==> x in Mentions(c) || x > n
  }

  /** No other command stores an id of the tree that command `k` added. */
  ghost predicate Shunned(cs: seq<Cmd>, k: nat)
    requires k < |cs|
  {
    cs[k].Add? ==> forall m :: 0 <= m < |cs| && m != k ==> Avoids(cs[m], cs[k].oldIds)
  }

  /** The ids listed when an addition was undone are those of its tree, and in use. */
  lemma {:induction false} UndoneIds(d: Doc, cs: seq<Cmd>, k: nat, w: seq<Forest<Item>>, i: nat)
    requires History(d, cs, k, w) && k <= i < |cs| && cs[i].Add?
    ensures cs[i].oldIds == Order(Added(cs, i, w))
    ensures forall x :: x in cs[i].oldIds <==> x in Ids(Added(cs, i, w))
    ensures forall x :: x in cs[i].oldIds ==> 0 < x <= d.maxId
  {
    assert Sound(d.maxId, cs, k, w, i);
    OrderIds(Added(cs, i, w));
    SubBounded(w[i + 1], cs[i].item, d.maxId);
  }

  /** Redoing an addition that nobody else refers to needs no walk over the stack. */
  lemma {:induction false} RedoShunned(d: Doc, cs: seq<Cmd>, k: nat,
                                       w: seq<Forest<Item>>) returns (w': seq<Forest<Item>>)
    requires History(d, cs, k, w) && k < |cs| && cs[k].Add? && Shunned(cs, k)
    ensures var (d', c) := RedoCmd(d, cs[k]);
            && d.maxId <= d'.maxId && Renewed(cs[k], c, d.maxId) && SameVersions(w, w')
            && History(d', cs[k := c], k + 1, w')
  {
    var t := Added(cs, k, w);
    var pairs := RedoAddStep(d, cs, k, w);
    var (d', c) := RedoCmd(d, cs[k]);
    w' := RenameEach(w, pairs);
    RenamedVersions(w, pairs);
    UndoneIds(d, cs, k, w, k);
    assert Sound(d.maxId, cs, k, w, k);
    RedoAddFacts(w[k], cs[k], w[k + 1], d.maxId);
    var cs' := cs[k := c];
    forall m | 0 <= m < |cs'| ensures RemapAll(cs'[m], pairs) == cs'[m] { RemapUntouched(cs'[m], pairs); }
    assert RemapEntry(cs', pairs) == cs';
  }

  lemma {:induction false} RedoOne(d: Doc, cs: seq<Cmd>, k: nat, w: seq<Forest<Item>>) returns (w': seq<Forest<Item>>)
    requires History(d, cs, k, w) && k < |cs| && Shunned(cs, k)
    ensures var (d', c) := RedoCmd(d, cs[k]);
            && d.maxId <= d'.maxId && Renewed(cs[k], c, d.maxId) && SameVersions(w, w')
            && History(d', cs[k := c], k + 1, w')
  {
    if cs[k].Add? {
      w' := RedoShunned(d, cs, k, w);
    } else {
      RedoStep(d, cs, k, w);
      assert cs[k := cs[k]] == cs;
      w' := w;
    }
  }

  // ---------------------------------------------------------------- redoing the commands of an entry

  /** Every addition from `lo` up to `hi` is referred to by no other command. */
  ghost predicate AllShunned(cs: seq<Cmd>, lo: nat, hi: nat) {
    forall k :: lo <= k < hi <= |cs| ==> Shunned(cs, k)
  }

  /** Commands redone one by one. */
  predicate AllRenewed(e: Entry, e': Entry, n: nat) {
    |e'| == |e| && forall i :: 0 <= i < |e| ==> Renewed(e[i], e'[i], n)
  }

  lemma {:induction false} StillShunned(d: Doc, cs: seq<Cmd>, k: nat, w: seq<Forest<Item>>, c: Cmd, hi: nat)
    requires History(d, cs, k, w) && k < hi <= |cs| && AllShunned(cs, k, hi) && Renewed(cs[k], c, d.maxId)
    ensures AllShunned(cs[k := c], k + 1, hi)
  {
    var cs' := cs[k := c];
    forall i: nat | k + 1 <= i < hi <= |cs| ensures Shunned(cs', i) {
      assert Shunned(cs, i);
      if cs[i].Add? { UndoneIds(d, cs, k, w, i); }
    }
  }

  lemma {:induction false} HeadReplaced(a: Entry, e: Entry, b: Entry, c: Cmd)
    requires e != []
    ensures (a + e + b)[|a|] == e[0] && (a + e + b)[|a| := c] == (a + [c]) + e[1..] + b
  {
  }

  lemma {:induction false} RedoSeqHead(d: Doc, e: Entry, d1: Doc, c: Cmd, d2: Doc, rest: Entry)
    requires e != [] && RedoCmd(d, e[0]) == (d1, c) && RedoSeq(d1, e[1..]) == (d2, rest)
    ensures RedoSeq(d, e) == (d2, [c] + rest)
  {
  }

  lemma {:induction false} RenewedMore(e: Entry, n: nat, n1: nat, c: Cmd, rest: Entry)
    requires e != [] && n <= n1 && Renewed(e[0], c, n) && AllRenewed(e[1..], rest, n1)
    ensures AllRenewed(e, [c] + rest, n)
  {
    forall i | 0 <= i < |e| ensures Renewed(e[i], ([c] + rest)[i], n) {
      if i > 0 { assert Renewed(e[1..][i - 1], rest[i - 1], n1); }
    }
  }

  /** Commands whose additions nobody else refers to, redone first to last. */
  lemma {:induction false} RedoSeqKeeps(d: Doc, a: Entry, e: Entry, b: Entry,
                                        w: seq<Forest<Item>>) returns (w': seq<Forest<Item>>)
    requires History(d, a + e + b, |a|, w) && AllShunned(a + e + b, |a|, |a| + |e|)
    ensures var (d', e') := RedoSeq(d, e);
            && d.maxId <= d'.maxId && AllRenewed(e, e', d.maxId) && SameVersions(w, w')
            && History(d', a + e' + b, |a| + |e|, w')
    decreases |e|
  {
    w' := w;
    if e != [] {
      var cs := a + e + b;
      var (d1, c) := RedoCmd(d, e[0]);
      HeadReplaced(a, e, b, c);
      assert Shunned(cs, |a|);
      var w1 := RedoOne(d, cs, |a|, w);
      StillShunned(d, cs, |a|, w, c, |a| + |e|);
      w' := RedoSeqKeeps(d1, a + [c], e[1..], b, w1);
      var (d2, rest) := RedoSeq(d1, e[1..]);
      RedoSeqHead(d, e, d1, c, d2, rest);
      RenewedMore(e, d.maxId, d1.maxId, c, rest);
      Regroup(a, c, rest, b);
    }
  }

  lemma {:induction false} Regroup(a: Entry, c: Cmd, rest: Entry, b: Entry)
    ensures (a + [c]) + rest + b == a + ([c] + rest) + b
  {
  }

  // ---------------------------------------------------------------- an entry that begins with an addition

  lemma {:induction false} RestUntouched(e: Entry, t: Forest<Item>, pairs: seq<(int, int)>)
    requires forall x :: x !in Ids(t) ==> Subst(x, pairs) == x
    requires forall i, x :: 0 <= i < |e| && x in Mentions(e[i]) ==> x !in Ids(t)
    ensures RemapEntry(e, pairs) == e
  {
    forall i | 0 <= i < |e| ensures RemapAll(e[i], pairs) == e[i] { RemapUntouched(e[i], pairs); }
  }

  lemma {:induction false} RemapParts(a: Entry, c: Cmd, rest: Entry, b: Entry, pairs: seq<(int, int)>)
    requires RemapEntry(rest, pairs) == rest
    ensures RemapEntry((a + [c]) + rest + b, pairs) == RemapEntry(a + [c], pairs) + rest + RemapEntry(b, pairs)
  {
    RemapConcat(a + [c] + rest, b, pairs);
    RemapConcat(a + [c], rest, pairs);
  }

  /** Redoing the addition an entry begins with, ids renamed in all commands but those after it in the entry. */
  lemma {:induction false} RedoAddHead(d: Doc, a: Entry, e: Entry, b: Entry,
                                       w: seq<Forest<Item>>) returns (pairs: seq<(int, int)>)
    requires History(d, a + e + b, |a|, w) && e != [] && e[0].Add?
    requires forall i :: 0 < i < |e| ==> Avoids(e[i], e[0].oldIds)
    ensures var (d1, c) := RedoCmd(d, e[0]);
            && c.Add? && c.changes == pairs && d.maxId <= d1.maxId && Renewed(e[0], c, d.maxId)
            && MovesOnly(Added(a + e + b, |a|, w), pairs, d.maxId, d1.maxId)
            && History(d1, RemapEntry(a + [c], pairs) + e[1..] + RemapEntry(b, pairs), |a| + 1, RenameEach(w, pairs))
  {
    var cs := a + e + b;
    assert cs[|a|] == e[0];
    pairs := RedoAddStep(d, cs, |a|, w);
    UndoneIds(d, cs, |a|, w, |a|);
    var (d1, c) := RedoCmd(d, e[0]);
    assert Sound(d.maxId, cs, |a|, w, |a|);
    RedoAddFacts(w[|a|], e[0], w[|a| + 1], d.maxId);
    HeadReplaced(a, e, b, c);
    forall i, x | 0 <= i < |e[1..]| && x in Mentions(e[1..][i]) ensures x !in Ids(Added(cs, |a|, w)) {
      assert e[1..][i] == e[i + 1];
    }
    RestUntouched(e[1..], Added(cs, |a|, w), pairs);
    RemapParts(a, c, e[1..], b, pairs);
  }

  /** Renaming a tree of which other trees' ids are no part leaves those others referred to by nobody else. */
  lemma {:induction false} AvoidsRenamed(c: Cmd, pairs: seq<(int, int)>, t: Forest<Item>, n: nat, n': nat,
                                         ids: seq<int>)
    requires MovesOnly(t, pairs, n, n') && Avoids(c, ids) && forall x :: x in ids ==> x <= n
    ensures Avoids(RemapAll(c, pairs), ids)
  {
    RemapIsRename(c, pairs);
    forall y | y in Mentions(Renamed(c, pairs)) ensures y !in ids {
      var x := MentionedFrom(c, pairs, y);
      if x !in Ids(t) { assert y == x; }
    }
  }

  lemma {:induction false} MentionedFrom(c: Cmd, pairs: seq<(int, int)>, y: int) returns (x: int)
    requires y in Mentions(Renamed(c, pairs))
    ensures x in Mentions(c) && y == Subst(x, pairs)
  {
    x := c.item;
    match c
    case Add(_, parent, _, _, _, _) => if y != Subst(c.item, pairs) { x := parent; }
    case Move(_, oldParent, newParent, _, _) =>
      if y != Subst(c.item, pairs) { x := if y == Subst(oldParent, pairs) then oldParent else newParent; }
    case Modify(_, _, _, _) =>
    case Toggle(_, _, _) =>
  }

  lemma {:induction false} HeadShunned(d: Doc, a: Entry, e: Entry, b: Entry, w: seq<Forest<Item>>, c: Cmd,
                                       pairs: seq<(int, int)>, n': nat)
    requires History(d, a + e + b, |a|, w) && e != [] && Renewed(e[0], c, d.maxId)
    requires MovesOnly(Added(a + e + b, |a|, w), pairs, d.maxId, n')
    requires AllShunned(a + e + b, |a| + 1, |a| + |e|)
    ensures AllShunned(RemapEntry(a + [c], pairs) + e[1..] + RemapEntry(b, pairs), |a| + 1, |a| + |e|)
  {
    var cs, cs' := a + e + b, RemapEntry(a + [c], pairs) + e[1..] + RemapEntry(b, pairs);
    forall k: nat | |a| + 1 <= k < |a| + |e| <= |cs'| ensures Shunned(cs', k) {
      assert Shunned(cs, k) && cs'[k] == cs[k];
      if cs[k].Add? {
        UndoneIds(d, cs, |a|, w, k);
        forall m | 0 <= m < |cs'| && m != k ensures Avoids(cs'[m], cs[k].oldIds) {
          assert Avoids(cs[m], cs[k].oldIds);
          if m == |a| {
            assert Avoids(c, cs[k].oldIds);
            AvoidsRenamed(c, pairs, Added(cs, |a|, w), d.maxId, n', cs[k].oldIds);
          } else {
            AvoidsRenamed(cs[m], pairs, Added(cs, |a|, w), d.maxId, n', cs[k].oldIds);
          }
        }
      }
    }
  }

  /** Redone commands still store no id of the tree that the entry began with. */
  lemma {:induction false} RestRenewed(e: Entry, rest: Entry, n: nat, n1: nat, t: Forest<Item>, pairs: seq<(int, int)>)
    requires e != [] && e[0].Add? && n <= n1 && AllRenewed(e[1..], rest, n1) && MovesOnly(t, pairs, n, n1)
    requires forall x :: x in Ids(t) <==> x in e[0].oldIds
    requires forall x :: x in Ids(t) ==> x <= n
    requires forall i :: 0 < i < |e| ==> Avoids(e[i], e[0].oldIds)
    ensures RemapEntry(rest, pairs) == rest
  {
    forall i, x | 0 <= i < |rest| && x in Mentions(rest[i]) ensures x !in Ids(t) {
      assert Renewed(e[1..][i], rest[i], n1) && e[1..][i] == e[i + 1];
    }
    RestUntouched(rest, t, pairs);
  }

  /** The other commands of the entry, redone where the stack's walk is still to come. */
  lemma {:induction false} RedoAddTail(a: Entry, e: Entry, b: Entry, d1: Doc, c: Cmd, w1: seq<Forest<Item>>, n: nat,
                                       t: Forest<Item>, pairs: seq<(int, int)>)
    returns (w': seq<Forest<Item>>)
    requires e != [] && e[0].Add? && n <= d1.maxId && MovesOnly(t, pairs, n, d1.maxId)
    requires forall x :: x in Ids(t) <==> x in e[0].oldIds
    requires forall x :: x in Ids(t) ==> x <= n
    requires forall i :: 0 < i < |e| ==> Avoids(e[i], e[0].oldIds)
    requires History(d1, RemapEntry(a + [c], pairs) + e[1..] + RemapEntry(b, pairs), |a| + 1, w1)
    requires AllShunned(RemapEntry(a + [c], pairs) + e[1..] + RemapEntry(b, pairs), |a| + 1, |a| + |e|)
    ensures var (d2, rest) := RedoSeq(d1, e[1..]);
            SameVersions(w1, w') && History(d2, RemapEntry(a + ([c] + rest) + b, pairs), |a| + |e|, w')
  {
    w' := RedoSeqKeeps(d1, RemapEntry(a + [c], pairs), e[1..], RemapEntry(b, pairs), w1);
    var (d2, rest) := RedoSeq(d1, e[1..]);
    RestRenewed(e, rest, n, d1.maxId, t, pairs);
    RemapParts(a, c, rest, b, pairs);
    Regroup(a, c, rest, b);
  }

  /**
    Redoing an entry that begins with an addition: the stack picks its new ids up after
    the other commands have run.
  */
  lemma {:induction false} RedoAddEntry(d: Doc, a: Entry, e: Entry, b: Entry, w: seq<Forest<Item>>)
    returns (w': seq<Forest<Item>>, pairs: seq<(int, int)>)
    requires History(d, a + e + b, |a|, w) && e != [] && e[0].Add?
    requires forall i :: 0 < i < |e| ==> Avoids(e[i], e[0].oldIds)
    requires AllShunned(a + e + b, |a| + 1, |a| + |e|)
    ensures var (d', e') := RedoSeq(d, e);
            && e' != [] && PickedUp(e') == pairs && SameVersions(w, w')
            && History(d', RemapEntry(a + e' + b, pairs), |a| + |e|, w')
  {
    var cs := a + e + b;
    pairs := RedoAddHead(d, a, e, b, w);
    var (d1, c) := RedoCmd(d, e[0]);
    var t := Added(cs, |a|, w);
    HeadShunned(d, a, e, b, w, c, pairs, d1.maxId);
    assert cs[|a|] == e[0];
    UndoneIds(d, cs, |a|, w, |a|);
    var w1 := RenameEach(w, pairs);
    w' := RedoAddTail(a, e, b, d1, c, w1, d.maxId, t, pairs);
    RenamedVersions(w, pairs);
    SameTwice(w, w1, w');
    var (d2, rest) := RedoSeq(d1, e[1..]);
    RedoSeqHead(d, e, d1, c, d2, rest);
  }

  lemma {:induction false} SameTwice(w: seq<Forest<Item>>, w1: seq<Forest<Item>>, w2: seq<Forest<Item>>)
    requires SameVersions(w, w1) && SameVersions(w1, w2)
    ensures SameVersions(w, w2)
  {
  }

  // ---------------------------------------------------------------- the editor's invariant

  /** Entry `i` begins at listed version `i`, ids left out. */
  ghost predicate Cut(stack: seq<Entry>, versions: seq<Forest<Item>>, w: seq<Forest<Item>>, i: int) {
    0 <= i <= |stack| < |versions| ==>
      && Offset(stack, i) < |w|
      && versions[i] == Erase(w[Offset(stack, i)])
      && (i < |stack| ==> stack[i] != [])
  }

  /** The versions `w`, cut where entries begin, are the listed ones. */
  ghost predicate Laid(stack: seq<Entry>, versions: seq<Forest<Item>>, w: seq<Forest<Item>>) {
    |versions| == |stack| + 1 && forall i :: Cut(stack, versions, w, i)
  }

  /** The edit of one property that an entry is, if it is one. */
  function EditOf(e: Entry): Option<Edit> {
    if |e| == 1 && e[0].Modify? then e[0].key else None
  }

  /** The list notes exactly the edits that the entries are. */
  ghost predicate Marked(stack: seq<Entry>, edits: seq<Option<Edit>>) {
    |edits| == |stack| && forall i :: 0 <= i < |stack| ==> edits[i] == EditOf(stack[i])
  }

  /** The stack is one history through versions `w`, cut into entries. */
  ghost predicate Inv(s: System, r: Reference, w: seq<Forest<Item>>) {
    && s.index <= |s.stack| && r.index == s.index
    && History(s.doc, Flat(s.stack), Offset(s.stack, s.index), w)
    && Laid(s.stack, r.versions, w)
    && Marked(s.stack, r.edits)
  }

  lemma {:induction false} Compose(s: System, r: Reference, w: seq<Forest<Item>>, d: Doc, stack: seq<Entry>, k: nat)
    requires s == System(d, stack, k) && k <= |stack| && r.index == k
    requires History(d, Flat(stack), Offset(stack, k), w) && Laid(stack, r.versions, w) && Marked(stack, r.edits)
    ensures Inv(s, r, w)
  {
  }

  /** The document is the current version. */
  lemma {:induction false} InvCurrent(s: System, r: Reference, w: seq<Forest<Item>>)
    requires Inv(s, r, w)
    ensures r.index < |r.versions| && Erase(s.doc.forest) == r.versions[r.index]
  {
    assert Cut(s.stack, r.versions, w, s.index);
  }

  lemma {:induction false} LaidReplaced(stack: seq<Entry>, k: nat, e: Entry, versions: seq<Forest<Item>>,
                                        w: seq<Forest<Item>>)
    requires Laid(stack, versions, w) && k < |stack| && |e| == |stack[k]|
    ensures Laid(stack[k := e], versions, w)
    ensures Offset(stack[k := e], k) == Offset(stack, k)
  {
    var stack' := stack[k := e];
    SameOffsets(stack, stack', k);
    forall i ensures Cut(stack', versions, w, i) {
      assert Cut(stack, versions, w, i);
      if 0 <= i <= |stack| {
        SameOffsets(stack, stack', i);
      }
    }
  }

  lemma {:induction false} FlatReplaced(stack: seq<Entry>, k: nat, e: Entry)
    requires k < |stack|
    ensures Flat(stack[k := e]) == Flat(stack[..k]) + e + Flat(stack[k + 1..])
  {
    FlatSplit(stack[k := e], k);
    assert stack[k := e][..k] == stack[..k] && stack[k := e][k + 1..] == stack[k + 1..];
  }

  lemma {:induction false} UndoSeqEdit(d: Doc, e: Entry)
    ensures EditOf(UndoSeq(d, e).1) == EditOf(e)
  {
    if |e| == 1 { assert e[..0] == []; }
  }

  lemma {:induction false} RedoSeqEdit(d: Doc, e: Entry)
    ensures EditOf(RedoSeq(d, e).1) == EditOf(e)
  {
    if |e| == 1 { assert e[1..] == []; }
  }

  lemma {:induction false} RemapEdit(e: Entry, pairs: seq<(int, int)>)
    ensures EditOf(RemapEntry(e, pairs)) == EditOf(e)
  {
    if |e| == 1 { RemapIsRename(e[0], pairs); }
  }

  lemma {:induction false} UndoInv(s: System, r: Reference, w: seq<Forest<Item>>)
    requires Inv(s, r, w) && s.index > 0
    ensures Inv(Undo(s), r.(index := r.index - 1), w)
  {
    var k := s.index - 1;
    var (d, e) := UndoSeq(s.doc, s.stack[k]);
    FlatSplit(s.stack, k);
    UndoSeqKeeps(s.doc, Flat(s.stack[..k]), s.stack[k], Flat(s.stack[k + 1..]), w);
    FlatReplaced(s.stack, k, e);
    LaidReplaced(s.stack, k, e, r.versions, w);
    UndoSeqEdit(s.doc, s.stack[k]);
  }

  lemma {:induction false} RemapNothing(stack: seq<Entry>)
    ensures RemapStack(stack, []) == stack
  {
    forall i | 0 <= i < |stack| ensures RemapEntry(stack[i], []) == stack[i] { }
  }

  /** The same entries, as long as before, over versions that differ in ids at most. */
  lemma {:induction false} LaidAgain(stack: seq<Entry>, stack': seq<Entry>, versions: seq<Forest<Item>>,
                                     w: seq<Forest<Item>>, w': seq<Forest<Item>>)
    requires Laid(stack, versions, w) && SameVersions(w, w') && |stack'| == |stack|
    requires forall i :: 0 <= i < |stack| ==> |stack'[i]| == |stack[i]|
    ensures Laid(stack', versions, w')
    ensures forall i :: 0 <= i <= |stack| ==> Offset(stack', i) == Offset(stack, i)
  {
    forall i | 0 <= i <= |stack| ensures Offset(stack', i) == Offset(stack, i) { SameOffsets(stack, stack', i); }
    forall i ensures Cut(stack', versions, w', i) { assert Cut(stack, versions, w, i); }
  }

  lemma {:induction false} FlatAvoids(stack: seq<Entry>, ids: seq<int>)
    requires forall m :: 0 <= m < |stack| ==> AllAvoid(stack[m], ids)
    ensures AllAvoid(Flat(stack), ids)
  {
    if stack != [] {
      forall m | 0 <= m < |stack[1..]| ensures AllAvoid(stack[1..][m], ids) { assert stack[1..][m] == stack[m + 1]; }
      FlatAvoids(stack[1..], ids);
    }
  }

  /** A safe entry's later additions are referred to by nobody else, wherever on the stack. */
  lemma {:induction false} SafeShunned(stack: seq<Entry>, k: nat, a: Entry, b: Entry, i: nat)
    requires k < |stack| && RedoSafe(stack, k) && a == Flat(stack[..k]) && b == Flat(stack[k + 1..]) && i < |stack[k]|
    requires i > 0 || !stack[k][0].Add?
    ensures Shunned(a + stack[k] + b, |a| + i)
  {
    var e := stack[k];
    var cs := a + e + b;
    assert cs[|a| + i] == e[i];
    if e[i].Add? {
      var ids := e[i].oldIds;
      var before, after := stack[..k], stack[k + 1..];
      forall m | 0 <= m < |before| ensures AllAvoid(before[m], ids) { assert before[m] == stack[m]; }
      forall m | 0 <= m < |after| ensures AllAvoid(after[m], ids) { assert after[m] == stack[k + 1 + m]; }
      FlatAvoids(before, ids);
      FlatAvoids(after, ids);
      forall m | 0 <= m < |cs| && m != |a| + i ensures Avoids(cs[m], ids) {
        if m < |a| {
          assert cs[m] == a[m];
        } else if m < |a| + |e| {
          assert cs[m] == e[m - |a|];
        } else {
          assert cs[m] == b[m - |a| - |e|];
        }
      }
    }
  }

  lemma {:induction false} SafeAll(stack: seq<Entry>, k: nat, a: Entry, b: Entry, lo: nat)
    requires k < |stack| && RedoSafe(stack, k) && a == Flat(stack[..k]) && b == Flat(stack[k + 1..]) && stack[k] != []
    requires lo == if stack[k][0].Add? then 1 else 0
    ensures AllShunned(a + stack[k] + b, |a| + lo, |a| + |stack[k]|)
  {
    var cs := a + stack[k] + b;
    forall i: nat | |a| + lo <= i < |a| + |stack[k]| <= |cs| ensures Shunned(cs, i) {
      SafeShunned(stack, k, a, b, i - |a|);
    }
  }

  /** Redoing one entry of the stack. */
  lemma {:induction false} RedoEntry(d: Doc, stack: seq<Entry>, k: nat,
                                     w: seq<Forest<Item>>) returns (w': seq<Forest<Item>>)
    requires k < |stack| && History(d, Flat(stack), Offset(stack, k), w) && stack[k] != [] && RedoSafe(stack, k)
    ensures var (d', e') := RedoSeq(d, stack[k]);
            && SameVersions(w, w')
            && History(d', Flat(RemapStack(stack[k := e'], PickedUp(e'))), Offset(stack, k + 1), w')
  {
    var a, e, b := Flat(stack[..k]), stack[k], Flat(stack[k + 1..]);
    var (d', e') := RedoSeq(d, e);
    FlatSplit(stack, k);
    FlatReplaced(stack, k, e');
    if e[0].Add? {
      SafeAll(stack, k, a, b, 1);
      var pairs;
      w', pairs := RedoAddEntry(d, a, e, b, w);
      RemapFlat(stack[k := e'], pairs);
    } else {
      SafeAll(stack, k, a, b, 0);
      w' := RedoSeqKeeps(d, a, e, b, w);
      assert Renewed(e[0], e'[0], d.maxId);
      RemapNothing(stack[k := e']);
    }
  }

  lemma {:induction false} SameLengths(stack: seq<Entry>, k: nat, e: Entry, pairs: seq<(int, int)>)
    requires k < |stack| && |e| == |stack[k]|
    ensures |RemapStack(stack[k := e], pairs)| == |stack|
    ensures forall i :: 0 <= i < |stack| ==> |RemapStack(stack[k := e], pairs)[i]| == |stack[i]|
  {
  }

  lemma {:induction false} RedoneInv(s: System, r: Reference, w: seq<Forest<Item>>, d: Doc, stack: seq<Entry>, k: nat,
                                     w': seq<Forest<Item>>)
    requires Inv(s, r, w) && k == s.index < |s.stack| == |stack| && SameVersions(w, w')
    requires forall i :: 0 <= i < |stack| ==> |stack[i]| == |s.stack[i]|
    requires History(d, Flat(stack), Offset(s.stack, k + 1), w') && Marked(stack, r.edits)
    ensures Inv(System(d, stack, k + 1), r.(index := k + 1), w')
  {
    LaidAgain(s.stack, stack, r.versions, w, w');
    Compose(System(d, stack, k + 1), r.(index := k + 1), w', d, stack, k + 1);
  }

  lemma {:induction false} RedoHistory(s: System, w: seq<Forest<Item>>) returns (w': seq<Forest<Item>>, d: Doc,
                                       stack: seq<Entry>)
    requires s.index < |s.stack| && History(s.doc, Flat(s.stack), Offset(s.stack, s.index), w)
    requires s.stack[s.index] != [] && RedoSafe(s.stack, s.index)
    ensures Redo(s) == System(d, stack, s.index + 1) && SameVersions(w, w')
    ensures |stack| == |s.stack|
    ensures forall i :: 0 <= i < |stack| ==> |stack[i]| == |s.stack[i]| && EditOf(stack[i]) == EditOf(s.stack[i])
    ensures History(d, Flat(stack), Offset(s.stack, s.index + 1), w')
  {
    var e;
    w' := RedoEntry(s.doc, s.stack, s.index, w);
    d, e := RedoSeq(s.doc, s.stack[s.index]).0, RedoSeq(s.doc, s.stack[s.index]).1;
    SameLengths(s.stack, s.index, e, PickedUp(e));
    stack := RemapStack(s.stack[s.index := e], PickedUp(e));
    RedoSeqEdit(s.doc, s.stack[s.index]);
    forall i | 0 <= i < |stack| ensures EditOf(stack[i]) == EditOf(s.stack[i]) {
      RemapEdit(s.stack[s.index := e][i], PickedUp(e));
    }
  }

  lemma {:induction false} RedoInv(s: System, r: Reference, w: seq<Forest<Item>>) returns (w': seq<Forest<Item>>)
    requires Inv(s, r, w) && s.index < |s.stack| && RedoSafe(s.stack, s.index)
    ensures Inv(Redo(s), r.(index := r.index + 1), w')
  {
    assert Cut(s.stack, r.versions, w, s.index);
    var d, stack;
    w', d, stack := RedoHistory(s, w);
    RedoneInv(s, r, w, d, stack, s.index, w');
  }

  lemma {:induction false} FlatAt(stack: seq<Entry>, i: nat, j: nat)
    requires i < |stack| && j < |stack[i]|
    ensures Offset(stack, i) + j < |Flat(stack)| && Flat(stack)[Offset(stack, i) + j] == stack[i][j]
  {
    FlatSplit(stack, i);
  }

  // ---------------------------------------------------------------- user actions

  /** An action and the command that records it link the document before to the document after. */
  lemma {:induction false} PerformLinks(d: Doc, a: Action)
    requires Version(d.forest, d.maxId) && Possible(d, a)
    ensures var (d', c) := Perform(d, a);
            && d.maxId <= d'.maxId && Version(d'.forest, d'.maxId)
            && Link(d.forest, c, d'.forest, false) && CmdBounded(c, d'.maxId)
            && (c.Modify? ==> c.key.None?)
            && (forall x :: x in Ids(d'.forest) ==> x in Ids(d.forest) || x > d.maxId)
  {
    var f := d.forest;
    match a
    case NewItem(parent, pos, tree) =>
      var t := Freshen(tree, d.maxId);
      FreshenBeyond(tree, d.maxId, f);
      assert t.id in Ids(t);
      RemoveInsert(f, parent, pos, t);
      InsertIds(f, parent, pos, t);
    case MoveItem(item, newParent, newPos) =>
      var m, t := Remove(f, item), Sub(f, item);
      RemoveIds(f, item);
      assert TOP !in Ids(f);
      InsertRemove(f, item, TOP);
      ParentFacts(f, item, TOP);
      RemoveInsert(m, newParent, newPos, t);
      InsertIds(m, newParent, newPos, t);
    case EditItem(item, data) => UpdateIds(f, item, data);
    case SwitchItem(item, on) => UpdateIds(f, item, ItemOf(f, item).(active := on));
  }

  /** A fresh command at the end of a history whose commands are all done. */
  lemma {:induction false} Extend(d: Doc, cs: seq<Cmd>, w: seq<Forest<Item>>, d': Doc, c: Cmd)
    requires History(d, cs, |cs|, w) && d.maxId <= d'.maxId && Version(d'.forest, d'.maxId)
    requires Link(d.forest, c, d'.forest, false) && CmdBounded(c, d'.maxId)
    requires c.Modify? && c.key.Some? ==> c.key.value.item == c.item
    requires forall x :: x in Ids(d'.forest) ==> x in Ids(d.forest) || x > d.maxId
    ensures History(d', cs + [c], |cs| + 1, w + [d'.forest])
  {
    var cs', k', w', n' := cs + [c], |cs| + 1, w + [d'.forest], d'.maxId;
    VersionAt(d, cs, |cs|, w, |cs|);
    forall i ensures Sound(n', cs', k', w', i) {
      assert Sound(d.maxId, cs, |cs|, w, i);
      if 0 <= i < |cs| {
        if cs[i].Modify? && cs[i].key.Some? && cs[i].key.value.item != cs[i].item {
          var key := cs[i].key.value.item;
          forall j ensures Lacks(w', j, key) {
            assert Lacks(w, j, key) && Lacks(w, |cs|, key);
          }
        }
      }
    }
  }

  /** A history may be cut short after any done command. */
  lemma {:induction false} Prefix(d: Doc, cs: seq<Cmd>, k: nat, w: seq<Forest<Item>>, m: nat)
    requires History(d, cs, k, w) && m <= k
    ensures History(Doc(w[m], d.maxId), cs[..m], m, w[..m + 1])
  {
    var cs', w' := cs[..m], w[..m + 1];
    forall i ensures Sound(d.maxId, cs', m, w', i) {
      assert Sound(d.maxId, cs, k, w, i);
      if 0 <= i < m && cs[i].Modify? && cs[i].key.Some? && cs[i].key.value.item != cs[i].item {
        var key := cs[i].key.value.item;
        forall j ensures Lacks(w', j, key) { assert Lacks(w, j, key); }
      }
    }
  }

  lemma {:induction false} PerformAllExtends(d: Doc, cs: seq<Cmd>, w: seq<Forest<Item>>, actions: seq<Action>)
    returns (ws: seq<Forest<Item>>)
    requires History(d, cs, |cs|, w) && PerformAll(d, actions).Some?
    ensures var (d', e) := PerformAll(d, actions).value;
            && |ws| == |e| == |actions|
            && History(d', cs + e, |cs| + |e|, w + ws)
            && (e != [] ==> ws[|e| - 1] == d'.forest)
    decreases |actions|
  {
    if actions == [] {
      ws := [];
      assert cs + [] == cs && w + [] == w;
    } else {
      var (d1, c) := Perform(d, actions[0]);
      VersionAt(d, cs, |cs|, w, |cs|);
      PerformLinks(d, actions[0]);
      Extend(d, cs, w, d1, c);
      var rest := PerformAllExtends(d1, cs + [c], w + [d1.forest], actions[1..]);
      var (d', e) := PerformAll(d1, actions[1..]).value;
      ws := [d1.forest] + rest;
      assert cs + [c] + e == cs + ([c] + e) && w + [d1.forest] + rest == w + ws;
    }
  }

  /** The kept versions still fit the kept entries. */
  lemma {:induction false} CutKept(stack: seq<Entry>, versions: seq<Forest<Item>>, w: seq<Forest<Item>>,
                                   m: nat, e: Entry, v: Forest<Item>, w': seq<Forest<Item>>, i: int)
    requires Laid(stack, versions, w) && i <= m <= |stack|
    requires Offset(stack, m) < |w| && Offset(stack, m) < |w'|
    requires w'[..Offset(stack, m) + 1] == w[..Offset(stack, m) + 1]
    requires i == m ==> e != []
    ensures Cut(stack[..m] + [e], versions[..m + 1] + [v], w', i)
  {
    assert Cut(stack, versions, w, i);
    if 0 <= i {
      var o, om := Offset(stack, i), Offset(stack, m);
      OffsetMonotone(stack, i, m);
      SameOffsets(stack, stack[..m] + [e], i);
      assert w'[..om + 1][o] == w[..om + 1][o];
      if i < m {
        OffsetMonotone(stack, i + 1, m);
        assert o + 1 <= om && w'[..om + 1][o + 1] == w[..om + 1][o + 1];
      }
    }
  }

  /** One more entry after the first `m`: the later ones, and their versions, are dropped. */
  lemma {:induction false} Grow(s: System, r: Reference, w: seq<Forest<Item>>, m: nat, d': Doc, e: Entry,
                                ws: seq<Forest<Item>>)
    requires Inv(s, r, w) && m <= s.index && e != [] && |ws| == |e| && ws[|e| - 1] == d'.forest
    requires Offset(s.stack, m) < |w|
    requires History(d', Flat(s.stack[..m]) + e, Offset(s.stack, m) + |e|, w[..Offset(s.stack, m) + 1] + ws)
    ensures Inv(System(d', s.stack[..m] + [e], m + 1), Noted(r, m + 1, Erase(d'.forest), EditOf(e)),
                w[..Offset(s.stack, m) + 1] + ws)
  {
    var o := Offset(s.stack, m);
    var stack', versions', w' := s.stack[..m] + [e], r.versions[..m + 1] + [Erase(d'.forest)], w[..o + 1] + ws;
    FlatConcat(s.stack[..m], [e]);
    assert Flat([e]) == e by { assert [e][1..] == []; }
    SameOffsets(s.stack, stack', m);
    assert Offset(stack', m + 1) == o + |e|;
    forall i ensures Cut(stack', versions', w', i) {
      if i <= m {
        CutKept(s.stack, r.versions, w, m, e, Erase(d'.forest), w', i);
      } else if i == m + 1 {
        assert w'[o + |e|] == ws[|e| - 1];
      }
    }
  }

  lemma {:induction false} PrefixEntries(s: System, r: Reference, w: seq<Forest<Item>>, m: nat)
    requires Inv(s, r, w) && m <= s.index
    ensures var o := Offset(s.stack, m);
            o < |w| && |Flat(s.stack[..m])| == o && History(Doc(w[o], s.doc.maxId), Flat(s.stack[..m]), o, w[..o + 1])
  {
    var o := Offset(s.stack, m);
    OffsetMonotone(s.stack, m, s.index);
    OffsetIsLength(s.stack, m);
    Prefix(s.doc, Flat(s.stack), Offset(s.stack, s.index), w, o);
    FlatConcat(s.stack[..m], s.stack[m..]);
    assert s.stack == s.stack[..m] + s.stack[m..];
    assert Flat(s.stack)[..o] == Flat(s.stack[..m]);
  }

  /** No action by itself is an edit of one property. */
  lemma {:induction false} ActionsUnmarked(d: Doc, actions: seq<Action>)
    requires PerformAll(d, actions).Some?
    ensures EditOf(PerformAll(d, actions).value.1) == None
  {
    if actions != [] {
      var (d1, c) := Perform(d, actions[0]);
      assert c.Modify? ==> c.key.None?;
    }
  }

  lemma {:induction false} ActInv(s: System, r: Reference, w: seq<Forest<Item>>, actions: seq<Action>)
    returns (w': seq<Forest<Item>>)
    requires Inv(s, r, w)
    ensures var (s', r') := Step(s, r, Act(actions)); Inv(s', r', w')
  {
    var done := PerformAll(s.doc, actions);
    if done.Some? && done.value.1 != [] {
      var (d, e) := done.value;
      var o := Offset(s.stack, s.index);
      PrefixEntries(s, r, w, s.index);
      assert s.doc == Doc(w[o], s.doc.maxId);
      var ws := PerformAllExtends(s.doc, Flat(s.stack[..s.index]), w[..o + 1], actions);
      w' := w[..o + 1] + ws;
      ActionsUnmarked(s.doc, actions);
      Grow(s, r, w, s.index, d, e, ws);
    } else {
      w' := w;
    }
  }

  /** The list notes what the command on top is, so it knows when that command takes in another edit. */
  lemma {:induction false} MergesExactly(s: System, r: Reference, w: seq<Forest<Item>>, item: int, property: string,
                                         now: nat)
    requires Inv(s, r, w)
    ensures Merges(s, item, property, now) <==> Continues(r, item, property, now)
  {
    if s.index > 0 { assert r.edits[s.index - 1] == EditOf(s.stack[s.index - 1]); }
  }

  /** Equal merge keys mean the same item, though either may have been rebuilt since. */
  lemma {:induction false} MergeTarget(s: System, r: Reference, w: seq<Forest<Item>>, item: int, property: string,
                                       now: nat)
    requires Inv(s, r, w) && item in Ids(s.doc.forest) && Merges(s, item, property, now)
    ensures var top := s.stack[s.index - 1][0];
            var o := Offset(s.stack, s.index - 1);
            && top.item == item && Offset(s.stack, s.index) == o + 1
            && o + 1 < |w| && Link(w[o], top, s.doc.forest, false)
  {
    var i := s.index - 1;
    var o := Offset(s.stack, i);
    FlatAt(s.stack, i, 0);
    assert Sound(s.doc.maxId, Flat(s.stack), o + 1, w, o);
    assert Lacks(w, o + 1, item) ==> false;
  }

  /** An edit recorded after version `o`: a new command there, or the one on top made to cover both edits. */
  lemma {:induction false} EditInv(s: System, r: Reference, w: seq<Forest<Item>>, m: nat, data: Item, c: Cmd)
    returns (w': seq<Forest<Item>>)
    requires Inv(s, r, w) && m <= s.index
    requires Offset(s.stack, m) < |w|
    requires c.Modify? && c.key.Some? && c.key.value.item == c.item && c.item in Ids(s.doc.forest)
    requires var d' := s.doc.(forest := Update(s.doc.forest, c.item, data));
             Link(w[Offset(s.stack, m)], c, d'.forest, false)
    ensures var d' := s.doc.(forest := Update(s.doc.forest, c.item, data));
            Inv(System(d', s.stack[..m] + [[c]], m + 1), Noted(r, m + 1, Erase(d'.forest), c.key), w')
  {
    var o := Offset(s.stack, m);
    var f, d' := s.doc.forest, s.doc.(forest := Update(s.doc.forest, c.item, data));
    PrefixEntries(s, r, w, m);
    VersionAt(s.doc, Flat(s.stack), Offset(s.stack, s.index), w, Offset(s.stack, s.index));
    VersionAt(s.doc, Flat(s.stack), Offset(s.stack, s.index), w, o);
    UpdateIds(f, c.item, data);
    UpdateIds(w[o], c.item, c.after);
    Extend(Doc(w[o], s.doc.maxId), Flat(s.stack[..m]), w[..o + 1], d', c);
    w' := w[..o + 1] + [d'.forest];
    Grow(s, r, w, m, d', [c], [d'.forest]);
  }

  lemma {:induction false} PropertyInv(s: System, r: Reference, w: seq<Forest<Item>>,
                                       item: int, property: string, data: Item, now: nat)
    returns (w': seq<Forest<Item>>)
    requires Inv(s, r, w)
    ensures var (s', r') := Step(s, r, Property(item, property, data, now)); Inv(s', r', w')
  {
    MergesExactly(s, r, w, item, property, now);
    if item !in Ids(s.doc.forest) {
      w' := w;
    } else if Merges(s, item, property, now) {
      var m := s.index - 1;
      MergeTarget(s, r, w, item, property, now);
      var top := s.stack[m][0];
      UpdateTwice(w[Offset(s.stack, m)], item, top.after, data);
      w' := EditInv(s, r, w, m, data, Merged(top, data, now));
    } else {
      PrefixEntries(s, r, w, s.index);
      w' := EditInv(s, r, w, s.index, data,
                    Modify(item, Some(Edit(item, property, now)), ItemOf(s.doc.forest, item), data));
    }
  }

  // ---------------------------------------------------------------- the theorem

  lemma {:induction false} StepInv(s: System, r: Reference, w: seq<Forest<Item>>,
                                   op: Op) returns (w': seq<Forest<Item>>)
    requires Inv(s, r, w) && Allowed(s, op)
    ensures var (s', r') := Step(s, r, op); Inv(s', r', w')
  {
    w' := w;
    match op
    case Act(actions) => w' := ActInv(s, r, w, actions);
    case Property(item, property, data, now) => w' := PropertyInv(s, r, w, item, property, data, now);
    case UndoOp => if s.index > 0 { UndoInv(s, r, w); }
    case RedoOp => if s.index < |s.stack| { w' := RedoInv(s, r, w); }
  }

  /** An editor just opened on a well-formed document, with the list holding that one version. */
  function Start(d: Doc): (b: (System, Reference))
    ensures b.0.index <= |b.0.stack| && Positioned(b.1)
  {
    (System(d, [], 0), Reference([Erase(d.forest)], [], 0))
  }

  lemma {:induction false} StartInv(d: Doc)
    requires Version(d.forest, d.maxId)
    ensures var (s, r) := Start(d); Inv(s, r, [d.forest])
  {
    var (s, r) := Start(d);
    forall i ensures Cut(s.stack, r.versions, [d.forest], i) { }
  }

  /** The editor and the list of versions after the first `n` operations. */
  function Both(d: Doc, ops: seq<Op>, n: nat): (b: (System, Reference))
    requires n <= |ops|
    ensures b.0.index <= |b.0.stack| && Positioned(b.1)
  {
    if n == 0 then Start(d)
    else
      var (s, r) := Both(d, ops, n - 1);
      Step(s, r, ops[n - 1])
  }

  /** A run in which no entry is redone while that is unsafe. */
  ghost predicate AllAllowed(d: Doc, ops: seq<Op>, n: nat) {
    n <= |ops| && (n > 0 ==> AllAllowed(d, ops, n - 1) && Allowed(Both(d, ops, n - 1).0, ops[n - 1]))
  }

  lemma {:induction false} BothInv(d: Doc, ops: seq<Op>, n: nat) returns (w: seq<Forest<Item>>)
    requires Version(d.forest, d.maxId) && AllAllowed(d, ops, n)
    ensures var (s, r) := Both(d, ops, n); Inv(s, r, w)
  {
    if n == 0 {
      StartInv(d);
      w := [d.forest];
    } else {
      var w0 := BothInv(d, ops, n - 1);
      var (s, r) := Both(d, ops, n - 1);
      w := StepInv(s, r, w0, ops[n - 1]);
    }
  }

  /**
    Whatever the user adds, moves, edits and toggles, one at a time or in macros,
    undoes and redoes, the document is the current version of the plain list, ids
    left out, as long as no entry is redone while that is unsafe.
  */
  lemma {:induction false} EditorFollowsVersions(d: Doc, ops: seq<Op>, n: nat)
    requires Version(d.forest, d.maxId) && AllAllowed(d, ops, n)
    ensures var (s, r) := Both(d, ops, n);
            r.index < |r.versions| && Erase(s.doc.forest) == r.versions[r.index] && Version(s.doc.forest, s.doc.maxId)
  {
    var w := BothInv(d, ops, n);
    var (s, r) := Both(d, ops, n);
    InvCurrent(s, r, w);
    VersionAt(s.doc, Flat(s.stack), Offset(s.stack, s.index), w, Offset(s.stack, s.index));
  }
}
