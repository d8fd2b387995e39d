/**
  Reading the variables out of a live Lua interpreter (src/LuaInterface.cpp,
  iterateTable, getVars, resetVariableTree, releaseVariableReferences): what the
  walk does to the interpreter's stack, to its registry and to the depth counter,
  on every heap, whatever the variable unit answers and wherever Lua panics.
*/
module LuaWalk {
  import opened Common

  datatype Value =
    | Nil
    | Boolean(b: bool)
    | Number(n: int)
    | Text(s: string)
    | Table(t: int)
    | Function(f: int)
    | Other(o: int)

  type Entries = seq<(Value, Value)>

  /** The tables of the interpreter, each with its entries in the order in which they are enumerated. */
  type Heap = map<int, Entries>

  /** The pseudo-index of the table of globals. */
  const GLOBALS: int := -10002

  /** The deepest level whose contents are read. */
  const MAX_DEPTH: nat := 99

  ghost predicate DistinctKeys(es: Entries) {
    forall i, j :: 0 <= i < j < |es| ==> es[i].0 != es[j].0
  }

  /** Keys are distinct and not nil, values are not nil, and every table mentioned exists. */
  ghost predicate Sound(heap: Heap) {
    forall t :: t in heap ==> DistinctKeys(heap[t]) && forall i :: 0 <= i < |heap[t]| ==> Proper(heap, heap[t][i])
  }

  predicate Proper(heap: Heap, e: (Value, Value)) {
    !e.0.Nil? && !e.1.Nil? && (e.1.Table? ==> e.1.t in heap)
  }

  /** Where the enumeration stands after `key`. */
  function After(es: Entries, key: Value): (i: nat)
    ensures i <= |es|
  {
    if key.Nil? then 0 else AfterKey(es, key, 0)
  }

  function AfterKey(es: Entries, key: Value, from: nat): (i: nat)
    requires from <= |es|
    ensures i <= |es|
    decreases |es| - from
  {
    if from == |es| then |es| else if es[from].0 == key then from + 1 else AfterKey(es, key, from + 1)
  }

  lemma {:induction false} AfterAt(es: Entries, i: nat, from: nat)
    requires DistinctKeys(es) && from <= i < |es|
    ensures AfterKey(es, es[i].0, from) == i + 1
    decreases i - from
  {
    if from < i { AfterAt(es, i, from + 1); }
  }

  function Held(s: seq<int>): set<int> {
    set r | r in s
  }

  lemma {:induction false} Largest(s: set<int>) returns (m: int)
    ensures forall x :: x in s ==> x <= m
    decreases |s|
  {
    if |s| == 0 {
      m := 0;
    } else {
      Nonempty(s);
      var x :| x in s;
      m := Largest(s - {x});
      m := if m < x then x else m;
      forall y | y in s ensures y <= m { assert y == x || y in s - {x}; }
    }
  }

  /** An entry that was read, and the depth counter at the time. */
  datatype Reading = Reading(depth: nat, key: Value, value: Value)

  /** The entries read at one depth, in order. */
  function Level(log: seq<Reading>, depth: nat): seq<(Value, Value)> {
    if log == [] then []
    else (if log[0].depth == depth then [(log[0].key, log[0].value)] else []) + Level(log[1..], depth)
  }

  /** All read below this depth, and above the limit. */
  ghost predicate Below(log: seq<Reading>, depth: nat) {
    forall i :: 0 <= i < |log| ==> depth < log[i].depth <= MAX_DEPTH + 1
  }

  lemma {:induction false} LevelConcat(a: seq<Reading>, b: seq<Reading>, depth: nat)
    ensures Level(a + b, depth) == Level(a, depth) + Level(b, depth)
  {
    if a == [] {
      assert a + b == b;
    } else {
      var head := if a[0].depth == depth then [(a[0].key, a[0].value)] else [];
      LevelConcat(a[1..], b, depth);
      calc {
        Level(a + b, depth);
        { assert (a + b)[1..] == a[1..] + b && (a + b)[0] == a[0]; }
        head + Level(a[1..] + b, depth);
        head + (Level(a[1..], depth) + Level(b, depth));
        Level(a, depth) + Level(b, depth);
      }
    }
  }

  lemma {:induction false} LevelBelow(log: seq<Reading>, depth: nat)
    requires Below(log, depth)
    ensures Level(log, depth) == []
  {
    if log != [] {
      assert Below(log[1..], depth);
      LevelBelow(log[1..], depth);
    }
  }

  /** How many of the keys read have no name of their own. */
  function Unnamed(log: seq<Reading>): nat {
    if log == [] then 0
    else (if log[0].key.Table? || log[0].key.Function? then 1 else 0) + Unnamed(log[1..])
  }

  lemma {:induction false} UnnamedConcat(a: seq<Reading>, b: seq<Reading>)
    ensures Unnamed(a + b) == Unnamed(a) + Unnamed(b)
  {
    if a == [] {
      assert a + b == b;
    } else {
      assert (a + b)[0] == a[0] && (a + b)[1..] == a[1..] + b;
      UnnamedConcat(a[1..], b);
    }
  }

  /** What two stretches of readings add to the references. */
  lemma {:induction false} UnnamedOver(was: seq<Reading>, mid: seq<Reading>, log: seq<Reading>)
    requires was <= mid <= log
    ensures Unnamed(log[|was|..]) == Unnamed(mid[|was|..]) + Unnamed(log[|mid|..])
  {
    UnnamedConcat(mid[|was|..], log[|mid|..]);
    assert log[|was|..] == mid[|was|..] + log[|mid|..];
  }

  lemma {:induction false} UnnamedOne(was: seq<Reading>, log: seq<Reading>)
    requires was < log
    ensures Unnamed(log[|was|..])
         == (if log[|was|].key.Table? || log[|was|].key.Function? then 1 else 0) + Unnamed(log[|was| + 1..])
  {
    assert log[|was|..][1..] == log[|was| + 1..];
  }

  /** What is asked about a reading: of the saved-variable filter, of the variable unit, and of Lua's stack. */
  datatype Question = Filtered | Known | Room

  /** The answers, for each question and the number of the reading that it is about. */
  type Replies = (Question, nat) -> bool

  /** The answers as they are when the filter is not on. */
  function Unfiltered(replies: Replies): Replies {
    (q: Question, i: nat) => q != Filtered && replies(q, i)
  }

  /**
    Reading number `i` is a table whose contents are wanted and may be read: no reserved
    name, not filtered out, not known already, not too deep, and with room on the stack.
  */
  predicate Opens(replies: Replies, r: Reading, i: nat) {
    && r.value.Table?
    && r.key != Text("_G")
    && (r.depth == 1 ==> r.key != Text("package") && !replies(Filtered, i))
    && !replies(Known, i)
    && r.depth <= MAX_DEPTH && replies(Room, i)
  }

  /**
    The readings from `lo` up to `hi` are these entries, in order, each followed by the
    whole contents of its table if that opens, and by nothing otherwise.
  */
  ghost predicate Unfolded(heap: Heap, replies: Replies, log: seq<Reading>, lo: nat, hi: nat, depth: nat, es: Entries)
    requires lo <= hi <= |log|
    decreases hi - lo, 2
  {
    if es == [] then lo == hi else exists mid: nat :: LastAt(heap, replies, log, lo, mid, hi, depth, es)
  }

  /** The last of the entries begins at `mid`. */
  ghost predicate LastAt(heap: Heap, replies: Replies, log: seq<Reading>, lo: nat, mid: nat, hi: nat, depth: nat,
                         es: Entries)
    requires lo <= hi <= |log| && es != []
    decreases hi - lo, 1
  {
    && lo <= mid < hi
    && Unfolded(heap, replies, log, lo, mid, depth, es[..|es| - 1])
    && ReadOne(heap, replies, log, mid, hi, depth, es[|es| - 1])
  }

  /** The readings from `lo` up to `hi` are this entry and what is read inside it. */
  ghost predicate ReadOne(heap: Heap, replies: Replies, log: seq<Reading>, lo: nat, hi: nat, depth: nat,
                          e: (Value, Value))
    requires lo <= hi <= |log|
    decreases hi - lo, 0
  {
    && lo < hi && log[lo] == Reading(depth, e.0, e.1)
    && if Opens(replies, log[lo], lo)
       then e.1.t in heap && Unfolded(heap, replies, log, lo + 1, hi, depth + 1, heap[e.1.t])
       else hi == lo + 1
  }

  /** What was read earlier does not change when more is read. */
  lemma {:induction false} UnfoldedStays(heap: Heap, replies: Replies, log: seq<Reading>, log': seq<Reading>,
                                         lo: nat, hi: nat, depth: nat, es: Entries)
    requires log <= log' && lo <= hi <= |log| && Unfolded(heap, replies, log, lo, hi, depth, es)
    ensures Unfolded(heap, replies, log', lo, hi, depth, es)
    decreases hi - lo
  {
    if es != [] {
      var n, e := |es| - 1, es[|es| - 1];
      var mid: nat :| LastAt(heap, replies, log, lo, mid, hi, depth, es);
      assert ReadOne(heap, replies, log, mid, hi, depth, e);
      UnfoldedStays(heap, replies, log, log', lo, mid, depth, es[..n]);
      if Opens(replies, log[mid], mid) {
        UnfoldedStays(heap, replies, log, log', mid + 1, hi, depth + 1, heap[e.1.t]);
      }
      assert ReadOne(heap, replies, log', mid, hi, depth, e);
      assert LastAt(heap, replies, log', lo, mid, hi, depth, es);
    }
  }

  /** One entry and what is inside it count as just that entry at its depth. */
  lemma {:induction false} LevelOne(log: seq<Reading>, lo: nat, hi: nat, depth: nat, e: (Value, Value))
    requires 0 < depth <= MAX_DEPTH + 1 && lo < hi <= |log| && log[lo] == Reading(depth, e.0, e.1)
    requires Below(log[lo + 1..hi], depth)
    ensures Below(log[lo..hi], depth - 1) && Level(log[lo..hi], depth) == [e]
  {
    var one, inner := log[lo..hi], log[lo + 1..hi];
    LevelBelow(inner, depth);
    assert one[1..] == inner && one[0] == log[lo];
    forall i | 0 <= i < |one| ensures depth - 1 < one[i].depth <= MAX_DEPTH + 1 {
      if i > 0 { assert one[i] == inner[i - 1]; }
    }
  }

  lemma {:induction false} BelowConcat(a: seq<Reading>, b: seq<Reading>, depth: nat)
    requires Below(a, depth) && Below(b, depth)
    ensures Below(a + b, depth)
  {
  }

  /** Nothing is read at a lesser depth or beyond the limit, and exactly the entries at this one. */
  lemma {:induction false} UnfoldedLevel(heap: Heap, replies: Replies, log: seq<Reading>, lo: nat, hi: nat,
                                         depth: nat, es: Entries)
    requires 0 < depth <= MAX_DEPTH + 1 && lo <= hi <= |log| && Unfolded(heap, replies, log, lo, hi, depth, es)
    ensures Below(log[lo..hi], depth - 1) && Level(log[lo..hi], depth) == es
    decreases hi - lo
  {
    if es != [] {
      var n, e := |es| - 1, es[|es| - 1];
      var mid: nat :| LastAt(heap, replies, log, lo, mid, hi, depth, es);
      assert ReadOne(heap, replies, log, mid, hi, depth, e);
      UnfoldedLevel(heap, replies, log, lo, mid, depth, es[..n]);
      if Opens(replies, log[mid], mid) {
        UnfoldedLevel(heap, replies, log, mid + 1, hi, depth + 1, heap[e.1.t]);
      }
      LevelOne(log, mid, hi, depth, e);
      assert log[lo..hi] == log[lo..mid] + log[mid..hi];
      LevelConcat(log[lo..mid], log[mid..hi], depth);
      BelowConcat(log[lo..mid], log[mid..hi], depth - 1);
      assert es == es[..n] + [e];
    }
  }

  /** The end of the stretch of readings from `i` on that are deeper than this. */
  function Deeper(log: seq<Reading>, i: nat, hi: nat, depth: nat): (j: nat)
    requires i <= hi <= |log|
    ensures i <= j <= hi && (j < hi ==> log[j].depth <= depth)
    ensures forall k :: i <= k < j ==> log[k].depth > depth
    decreases hi - i
  {
    if i == hi || log[i].depth <= depth then i else Deeper(log, i + 1, hi, depth)
  }

  /** What follows reading `i`, before anything that is not inside it, is exactly what should be read of its value. */
  ghost predicate Contents(heap: Heap, replies: Replies, log: seq<Reading>, i: nat, hi: nat)
    requires i < hi <= |log|
  {
    var inside := log[i + 1..Deeper(log, i + 1, hi, log[i].depth)];
    if Opens(replies, log[i], i)
    then log[i].value.t in heap && Level(inside, log[i].depth + 1) == heap[log[i].value.t]
    else inside == []
  }

  lemma {:induction false} DeeperStops(log: seq<Reading>, i: nat, mid: nat, hi: nat, depth: nat)
    requires i <= mid <= hi <= |log| && (mid < hi ==> log[mid].depth <= depth)
    ensures Deeper(log, i, hi, depth) == Deeper(log, i, mid, depth)
    decreases mid - i
  {
    if i < mid && log[i].depth > depth { DeeperStops(log, i + 1, mid, hi, depth); }
  }

  lemma {:induction false} DeeperAll(log: seq<Reading>, i: nat, hi: nat, depth: nat)
    requires i <= hi <= |log| && forall k :: i <= k < hi ==> log[k].depth > depth
    ensures Deeper(log, i, hi, depth) == hi
    decreases hi - i
  {
    if i < hi { DeeperAll(log, i + 1, hi, depth); }
  }

  lemma {:induction false} ContentsBefore(heap: Heap, replies: Replies, log: seq<Reading>, i: nat, mid: nat, hi: nat)
    requires i < mid < hi <= |log| && log[mid].depth <= log[i].depth && Contents(heap, replies, log, i, mid)
    ensures Contents(heap, replies, log, i, hi)
  {
    DeeperStops(log, i + 1, mid, hi, log[i].depth);
  }

  lemma {:induction false} ContentsAt(heap: Heap, replies: Replies, log: seq<Reading>, lo: nat, hi: nat, depth: nat,
                                      e: (Value, Value))
    requires 0 < depth <= MAX_DEPTH + 1 && lo < hi <= |log| && ReadOne(heap, replies, log, lo, hi, depth, e)
    ensures Contents(heap, replies, log, lo, hi)
  {
    if Opens(replies, log[lo], lo) {
      UnfoldedLevel(heap, replies, log, lo + 1, hi, depth + 1, heap[e.1.t]);
      forall k | lo + 1 <= k < hi ensures log[k].depth > depth { assert log[k] == log[lo + 1..hi][k - lo - 1]; }
      DeeperAll(log, lo + 1, hi, depth);
    }
  }

  /**
    At every depth: a reading of a table that nothing stops is followed by exactly that
    table's entries, in order, and any other reading by nothing of its own.
  */
  lemma {:induction false} EachUnfolded(heap: Heap, replies: Replies, log: seq<Reading>, lo: nat, hi: nat,
                                        depth: nat, es: Entries, i: nat)
    requires 0 < depth <= MAX_DEPTH + 1 && lo <= i < hi <= |log| && Unfolded(heap, replies, log, lo, hi, depth, es)
    ensures Contents(heap, replies, log, i, hi)
    decreases hi - lo
  {
    var n, e := |es| - 1, es[|es| - 1];
    var mid: nat :| LastAt(heap, replies, log, lo, mid, hi, depth, es);
    assert ReadOne(heap, replies, log, mid, hi, depth, e);
    if i < mid {
      EachUnfolded(heap, replies, log, lo, mid, depth, es[..n], i);
      UnfoldedLevel(heap, replies, log, lo, mid, depth, es[..n]);
      assert log[i] == log[lo..mid][i - lo];
      ContentsBefore(heap, replies, log, i, mid, hi);
    } else if i == mid {
      ContentsAt(heap, replies, log, mid, hi, depth, e);
    } else {
      EachUnfolded(heap, replies, log, mid + 1, hi, depth + 1, heap[e.1.t], i);
    }
  }

  /** The heap and the answers leave no choice: there is one such reading only. */
  lemma {:induction false} UnfoldedOnce(heap: Heap, replies: Replies, log: seq<Reading>, log': seq<Reading>, lo: nat,
                                        hi: nat, hi': nat, depth: nat, es: Entries)
    requires lo <= hi <= |log| && lo <= hi' <= |log'|
    requires Unfolded(heap, replies, log, lo, hi, depth, es) && Unfolded(heap, replies, log', lo, hi', depth, es)
    ensures hi == hi' && log[lo..hi] == log'[lo..hi']
    decreases hi - lo
  {
    if es != [] {
      var n, e := |es| - 1, es[|es| - 1];
      var mid: nat :| LastAt(heap, replies, log, lo, mid, hi, depth, es);
      assert ReadOne(heap, replies, log, mid, hi, depth, e);
      var mid': nat :| LastAt(heap, replies, log', lo, mid', hi', depth, es);
      assert ReadOne(heap, replies, log', mid', hi', depth, e);
      UnfoldedOnce(heap, replies, log, log', lo, mid, mid', depth, es[..n]);
      if Opens(replies, log[mid], mid) {
        UnfoldedOnce(heap, replies, log, log', mid + 1, hi, hi', depth + 1, heap[e.1.t]);
      }
      assert log[lo..hi] == log[lo..mid] + [log[mid]] + log[mid + 1..hi];
      assert log'[lo..hi'] == log'[lo..mid] + [log'[mid]] + log'[mid + 1..hi'];
    }
  }

  /** From reading number `start` on, the first `i` entries of a table have been read at the depth below `depth`. */
  ghost predicate ReadSoFar(heap: Heap, replies: Replies, start: nat, log: seq<Reading>, depth: nat, es: Entries,
                            i: nat) {
    && i <= |es| && start <= |log| && Below(log[start..], depth)
    && Unfolded(heap, replies, log, start, |log|, depth + 1, es[..i])
  }

  lemma {:induction false} ReadStart(heap: Heap, replies: Replies, log: seq<Reading>, depth: nat, es: Entries)
    ensures ReadSoFar(heap, replies, |log|, log, depth, es, 0)
  {
    assert log[|log|..] == [];
  }

  /** Reading the next entry adds exactly that entry at its depth, and what is inside it. */
  lemma {:induction false} ReadNext(heap: Heap, replies: Replies, start: nat, was: seq<Reading>, log: seq<Reading>,
                                    depth: nat, es: Entries, i: nat, next: nat)
    requires ReadSoFar(heap, replies, start, was, depth, es, i) && i < |es| && next == i + 1 && depth <= MAX_DEPTH
    requires was < log && log[|was|] == Reading(depth + 1, es[i].0, es[i].1)
    requires Below(log[|was| + 1..], depth + 1)
    ensures start <= |log| && Below(log[start..], depth)
    ensures ReadOne(heap, replies, log, |was|, |log|, depth + 1, es[i]) ==>
              ReadSoFar(heap, replies, start, log, depth, es, next)
  {
    var a, added := was[start..], log[|was|..];
    assert log[start..] == a + added && added == [log[|was|]] + log[|was| + 1..];
    UnfoldedStays(heap, replies, was, log, start, |was|, depth + 1, es[..i]);
    assert es[..next][..i] == es[..i] && es[..next][i] == es[i];
    if ReadOne(heap, replies, log, |was|, |log|, depth + 1, es[i]) {
      assert LastAt(heap, replies, log, start, |was|, |log|, depth + 1, es[..next]);
    }
  }

  class Walker {
    const heap: Heap
    const globals: int
    const replies: Replies
    var stack: seq<Value>
    var registry: map<int, Value>
    var refs: seq<int>
    var depth: nat
    /** Only the saved variables are wanted. */
    var savedOnly: bool
    /** Everything read so far. */
    var log: seq<Reading>

    /** The walk's references are in the registry, each once, and stand for keys that are tables or functions. */
    ghost predicate Valid()
      reads this
    {
      && Sound(heap) && globals in heap && Distinct(refs)
      && forall r :: r in refs ==> r in registry && (registry[r].Table? || registry[r].Function?)
    }

    /** The answers that count. */
    function Replied(): Replies
      reads this`savedOnly
    {
      if savedOnly then replies else Unfiltered(replies)
    }

    /** The registry entries that are not the walk's. */
    ghost function Others(): map<int, Value>
      reads this
    {
      registry - Held(refs)
    }

    /** What every call keeps: references are only added, and nobody else's registry entries are touched. */
    ghost predicate Kept(others: map<int, Value>, before: seq<int>)
      reads this
    {
      Valid() && Others() == others && before <= refs
    }

    /** One reference for every key without a name that has been read since; one may be missing after a panic. */
    ghost predicate Counted(before: seq<int>, added: seq<Reading>, ok: bool)
      reads this
    {
      |refs| <= |before| + Unnamed(added) && (ok ==> |refs| == |before| + Unnamed(added))
    }

    /** A table or function key has been referred to, once; any other key has not. */
    ghost predicate KeyHeld(key: Value, before: seq<int>)
      reads this
    {
      if key.Table? || key.Function?
      then |refs| == |before| + 1 && refs[|before|] in registry && registry[refs[|before|]] == key
      else refs == before
    }

    /** What was on the stack is still there, below whatever has been added. */
    ghost predicate Above(base: seq<Value>)
      reads this
    {
      base <= stack
    }

    constructor (heap: Heap, globals: int, replies: Replies, stack: seq<Value>, registry: map<int, Value>)
      requires Sound(heap) && globals in heap
      ensures this.heap == heap && this.globals == globals && this.replies == replies
      ensures this.stack == stack && this.registry == registry
      ensures Valid() && refs == [] && depth == 0 && log == [] && !savedOnly
    {
      this.heap, this.globals, this.replies, this.stack, this.registry := heap, globals, replies, stack, registry;
      refs, depth, log, savedOnly := [], 0, [], false;
    }

    /** Anything that allocates may end in a panic, which jumps out of the walk. */
    method Allocates() returns (panics: bool)
    {
      panics := *;
    }

    /** The answer to a question about the latest reading: any. */
    method Answer(q: Question) returns (yes: bool)
      requires log != []
      ensures yes == replies(q, |log| - 1)
    {
      yes := replies(q, |log| - 1);
    }

    function TableAt(index: int): Value
      reads this
    {
      if index == GLOBALS then Table(globals)
      else if 0 <= |stack| + index < |stack| then stack[|stack| + index]
      else Nil
    }

    /**
      lua_next: takes a key off the stack and puts the entry after it there, if there is
      one; a panic comes before either.
    */
    method Next(index: int) returns (ok: bool, more: bool)
      requires stack != [] && TableAt(index).Table? && TableAt(index).t in heap
      modifies this`stack
      ensures var es := heap[old(TableAt(index)).t]; var i := After(es, old(stack)[|old(stack)| - 1]);
              var base := old(stack)[..|old(stack)| - 1];
              ok ==> more == (i < |es|) && stack == if more then base + [es[i].0, es[i].1] else base
      ensures !ok ==> stack == old(stack)
    {
      more := false;
      ok := Allocates();
      if !ok { return; }
      var es := heap[TableAt(index).t];
      var i := After(es, stack[|stack| - 1]);
      stack := stack[..|stack| - 1];
      more := i < |es|;
      if more { stack := stack + [es[i].0, es[i].1]; }
    }

    /** luaL_ref: takes the top value into the registry under a number not in use, or panics before it does. */
    method Ref() returns (ok: bool, r: int)
      requires Valid() && stack != [] && (stack[|stack| - 1].Table? || stack[|stack| - 1].Function?)
      modifies this`stack, this`registry, this`refs
      ensures Kept(old(Others()), old(refs))
      ensures ok ==> stack == old(stack)[..|old(stack)| - 1] && refs == old(refs) + [r]
      ensures ok ==> r !in old(registry) && registry == old(registry)[r := old(stack)[|old(stack)| - 1]]
      ensures !ok ==> stack == old(stack) && refs == old(refs) && registry == old(registry)
    {
      r := 0;
      ok := Allocates();
      if !ok { return; }
      ghost var m := Largest(registry.Keys);
      assert m + 1 !in registry;
      r :| r !in registry;
      registry := registry[r := stack[|stack| - 1]];
      stack := stack[..|stack| - 1];
      refs := refs + [r];
      assert Others() == old(Others());
    }

    /** Takes the top value off. */
    method Pop()
      requires stack != []
      modifies this`stack
      ensures stack == old(stack)[..|old(stack)| - 1]
    {
      stack := stack[..|stack| - 1];
    }

    /** Refers to the key on top. */
    method TakeKey() returns (ok: bool)
      requires Valid() && stack != [] && (stack[|stack| - 1].Table? || stack[|stack| - 1].Function?)
      modifies this`stack, this`registry, this`refs
      ensures Kept(old(Others()), old(refs))
      ensures stack == if ok then old(stack)[..|old(stack)| - 1] else old(stack)
      ensures if ok then KeyHeld(old(stack)[|old(stack)| - 1], old(refs)) else refs == old(refs)
    {
      var r;
      ok, r := Ref();
    }

    /**
      Names the current entry's key, taking a reference when the key has no name of its own;
      the copy of the key goes again.
    */
    method NameKey() returns (ok: bool, isPackage: bool, isGlobals: bool)
      requires Valid() && |stack| >= 2 && !stack[|stack| - 2].Nil?
      modifies this`stack, this`registry, this`refs
      ensures Kept(old(Others()), old(refs)) && Above(old(stack))
      ensures !ok ==> refs == old(refs)
      ensures ok ==> stack == old(stack)
      ensures var key := old(stack)[|old(stack)| - 2];
              ok ==>
                isPackage == (key == Text("package")) && isGlobals == (key == Text("_G")) && KeyHeld(key, old(refs))
    {
      isPackage, isGlobals := false, false;
      var key := stack[|stack| - 2];
      stack := stack + [key];
      ok := Allocates();
      if !ok { return; }
      match key {
        case Table(_) => ok := TakeKey();
        case Boolean(_) => Pop();
        case Function(_) => ok := TakeKey();
        case Text(s) => isPackage, isGlobals := s == "package", s == "_G"; Pop();
        case Number(_) => Pop();
        case Other(_) => Pop();
        case Nil =>
      }
    }

    /** lua_next from entry `i` on: it takes the key just read off the stack. */
    method NextAfter(index: int, ghost es: Entries, ghost base: seq<Value>, ghost i: nat) returns (ok: bool, more: bool)
      requires Sound(heap) && stack != [] && base == stack[..|stack| - 1]
      requires TableAt(index).Table? && TableAt(index).t in heap && es == heap[TableAt(index).t]
      requires i <= |es| && stack[|stack| - 1] == if i == 0 then Nil else es[i - 1].0
      modifies this`stack
      ensures ok ==> more == (i < |es|) && stack == if more then base + [es[i].0, es[i].1] else base
      ensures !ok ==> base <= stack
    {
      if i > 0 { AfterAt(es, i - 1, 0); }
      assert After(es, stack[|stack| - 1]) == i by { if i > 0 { assert Proper(heap, es[i - 1]); } }
      ok, more := Next(index);
    }

    /** The current entry, then on to the next. */
    method EntryAndNext(index: int, ghost es: Entries, ghost base: seq<Value>, ghost i: nat, ghost before: seq<int>,
                        ghost start: seq<Reading>)
      returns (ok: bool, more: bool)
      requires Valid() && 0 < depth <= MAX_DEPTH + 1 && i < |es| && stack == base + [es[i].0, es[i].1]
      requires index == GLOBALS || (index == -2 && base != [])
      requires var table := if index == GLOBALS then Table(globals) else base[|base| - 1];
               table.Table? && table.t in heap && es == heap[table.t]
      requires start <= log && ReadSoFar(heap, Replied(), |start|, log, depth - 1, es, i)
      requires Counted(before, log[|start|..], true)
      modifies this`stack, this`registry, this`refs, this`depth, this`log
      ensures Kept(old(Others()), old(refs)) && start <= log && Below(log[|start|..], old(depth) - 1)
      ensures Counted(before, log[|start|..], ok)
      ensures ok ==> depth == old(depth) && more == (i + 1 < |es|)
      ensures ok ==> ReadSoFar(heap, Replied(), |start|, log, depth - 1, es, i + 1)
      ensures ok ==> stack == if more then base + [es[i + 1].0, es[i + 1].1] else base
      ensures !ok ==> base <= stack
      decreases MAX_DEPTH + 1 - depth, 0, 2
    {
      more := false;
      assert Proper(heap, es[i]);
      ghost var was, d := log, depth - 1;
      ok := ReadEntry();
      ReadNext(heap, Replied(), |start|, was, log, d, es, i, i + 1);
      UnnamedOver(start, was, log);
      if !ok { return; }
      Pop();
      ok, more := NextAfter(index, es, base, i + 1);
    }

    /**
      Walks one table's entries, and the tables in them, from the key on top of the
      stack on.  Every entry of the table is read once and in order, each followed by
      what its value holds unless something stops that; nothing is read at a lesser
      depth or beyond the limit.  At the end the key is gone and nothing else of the
      stack has changed; a panic leaves what was below the key in place.
    */
    method IterateTable(index: int) returns (ok: bool)
      requires Valid() && depth <= MAX_DEPTH && stack != [] && stack[|stack| - 1].Nil?
      requires index == GLOBALS || (index == -2 && |stack| >= 2)
      requires TableAt(index).Table? && TableAt(index).t in heap
      modifies this`stack, this`registry, this`refs, this`depth, this`log
      ensures Kept(old(Others()), old(refs)) && old(log) <= log && Below(log[|old(log)|..], old(depth))
      ensures Counted(old(refs), log[|old(log)|..], ok)
      ensures ok ==> stack == old(stack)[..|old(stack)| - 1] && depth == old(depth) + 1
      ensures ok ==> Level(log[|old(log)|..], old(depth) + 1) == heap[old(TableAt(index)).t]
      ensures ok ==>
        Unfolded(heap, Replied(), log, |old(log)|, |log|, old(depth) + 1, heap[old(TableAt(index)).t])
      ensures !ok ==> Above(old(stack)[..|old(stack)| - 1])
      decreases MAX_DEPTH - depth, 1, 0
    {
      ghost var others, before, base, start, d := Others(), refs, stack[..|stack| - 1], log, depth;
      ghost var es := heap[TableAt(index).t];
      ghost var i := 0;
      depth := depth + 1;
      var more;
      ok, more := NextAfter(index, es, base, i);
      ReadStart(heap, Replied(), log, d, es);
      assert log[|start|..] == [];
      if !ok { return; }
      while more
        invariant 0 <= i <= |es| && depth == d + 1 && Kept(others, before) && start <= log
        invariant Counted(before, log[|start|..], true)
        invariant more == (i < |es|)
        invariant stack == if more then base + [es[i].0, es[i].1] else base
        invariant ReadSoFar(heap, Replied(), |start|, log, d, es, i)
        decreases |es| - i
      {
        ok, more := EntryAndNext(index, es, base, i, before, start);
        if !ok { return; }
        i := i + 1;
      }
      assert es[..i] == es && log[|start|..|log|] == log[|start|..];
      UnfoldedLevel(heap, Replied(), log, |start|, |log|, d + 1, es);
      ok := true;
    }

    /** The entry is noted and its key named; says whether its value is wanted. */
    method NoteEntry() returns (ok: bool, wanted: bool)
      requires Valid() && |stack| >= 2 && !stack[|stack| - 2].Nil?
      modifies this`stack, this`registry, this`refs, this`log
      ensures Kept(old(Others()), old(refs)) && Above(old(stack)) && (ok ==> stack == old(stack))
      ensures log == old(log) + [Reading(depth, old(stack)[|old(stack)| - 2], old(stack)[|old(stack)| - 1])]
      ensures Counted(old(refs), log[|old(log)|..], ok)
      ensures var key, i := old(stack)[|old(stack)| - 2], |old(log)|;
              ok ==> wanted ==
                     (key != Text("_G") && !Replied()(Known, i)
                      && (depth == 1 ==> key != Text("package") && !Replied()(Filtered, i)))
    {
      var isPackage, isGlobals;
      wanted := false;
      log := log + [Reading(depth, stack[|stack| - 2], stack[|stack| - 1])];
      UnnamedOne(old(log), log);
      ok, isPackage, isGlobals := NameKey();
      if !ok { return; }
      if isPackage && depth == 1 { return; }
      var filtered := false;
      if savedOnly && depth == 1 { filtered := Answer(Filtered); }
      if filtered { return; }
      var known := Answer(Known);
      wanted := !isGlobals && !known;
    }

    /**
      Reads the entry whose key and value are on top of the stack, and walks into the
      value if it is a table and nothing stops that.
    */
    method ReadEntry() returns (ok: bool)
      requires Valid() && 0 < depth <= MAX_DEPTH + 1 && |stack| >= 2 && !stack[|stack| - 2].Nil?
      requires stack[|stack| - 1].Table? ==> stack[|stack| - 1].t in heap
      modifies this`stack, this`registry, this`refs, this`depth, this`log
      ensures Kept(old(Others()), old(refs)) && old(log) < log && Counted(old(refs), log[|old(log)|..], ok)
      ensures log[|old(log)|] == Reading(old(depth), old(stack)[|old(stack)| - 2], old(stack)[|old(stack)| - 1])
      ensures Below(log[|old(log)| + 1..], old(depth))
      ensures ok ==>
        ReadOne(heap, Replied(), log, |old(log)|, |log|, old(depth),
                (old(stack)[|old(stack)| - 2], old(stack)[|old(stack)| - 1]))
      ensures ok ==> stack == old(stack) && depth == old(depth)
      ensures !ok ==> Above(old(stack))
      decreases MAX_DEPTH + 1 - depth, 0, 1
    {
      var wanted;
      ok, wanted := NoteEntry();
      if !ok || !wanted { return; }
      ghost var was := log;
      ok := ReadValue();
      UnnamedOver(old(log), was, log);
    }

    /**
      Walks into the value on top of the stack if it is a table, the limit allows and the
      stack can be grown, or converts a copy of it.
    */
    method ReadValue() returns (ok: bool)
      requires Valid() && 0 < depth <= MAX_DEPTH + 1 && stack != [] && log != []
      requires stack[|stack| - 1].Table? ==> stack[|stack| - 1].t in heap
      modifies this`stack, this`registry, this`refs, this`depth, this`log
      ensures Kept(old(Others()), old(refs)) && old(log) <= log && Below(log[|old(log)|..], old(depth))
      ensures Counted(old(refs), log[|old(log)|..], ok)
      ensures var value := old(stack)[|old(stack)| - 1];
              if value.Table? && old(depth) <= MAX_DEPTH && Replied()(Room, |old(log)| - 1)
              then ok ==> Unfolded(heap, Replied(), log, |old(log)|, |log|, old(depth) + 1, heap[value.t])
              else log == old(log)
      ensures ok ==> stack == old(stack) && depth == old(depth)
      ensures !ok ==> Above(old(stack))
      decreases MAX_DEPTH + 1 - depth, 0, 0
    {
      ok := true;
      match stack[|stack| - 1] {
        case Table(_) =>
          var room := false;
          if depth <= MAX_DEPTH {
            ok := Allocates();
            if !ok { return; }
            room := Answer(Room);
          }
          if room {
            stack := stack + [Nil];
            ok := IterateTable(-2);
            if ok { depth := depth - 1; }
          }
        case Text(_) => ok := ReadScalar();
        case Number(_) => ok := ReadScalar();
        case _ =>
      }
    }

    /** Converts a copy of the value on top. */
    method ReadScalar() returns (ok: bool)
      requires Valid() && stack != []
      modifies this`stack
      ensures ok ==> stack == old(stack)
      ensures !ok ==> Above(old(stack))
    {
      stack := stack + [stack[|stack| - 1]];
      ok := Allocates();
      if ok { Pop(); }
    }

    /** Gives every reference back, once. */
    method ReleaseVariableReferences()
      requires Valid()
      modifies this`registry, this`refs
      ensures refs == [] && registry == old(Others()) && Valid()
    {
      var i := 0;
      ghost var all := registry;
      forall j | 0 <= j < |refs| ensures refs[j] in registry {
        var r := refs[j];
        assert r in refs;
      }
      while i < |refs|
        invariant 0 <= i <= |refs| && refs == old(refs)
        invariant registry == all - Held(refs[..i])
        invariant forall j :: i <= j < |refs| ==> refs[j] in registry
      {
        assert refs[..i + 1] == refs[..i] + [refs[i]] && refs[i] in registry;
        registry := registry - {refs[i]};
        i := i + 1;
      }
      assert refs[..i] == refs;
      refs := [];
    }

    /**
      Reads the variables in.  However the walk ends, the interpreter's stack is as
      it was, and releasing the references that are held now gives the registry
      that releasing the earlier ones would have given.
    */
    method GetVars() returns (complete: bool)
      requires Valid() && !savedOnly
      modifies this
      ensures !savedOnly
      ensures stack == old(stack) && Valid() && Others() == old(Others())
      ensures old(log) <= log && Below(log[|old(log)|..], 0)
      ensures Counted([], log[|old(log)|..], complete)
      ensures complete ==> Level(log[|old(log)|..], 1) == heap[globals]
      ensures complete ==> Unfolded(heap, Unfiltered(replies), log, |old(log)|, |log|, 1, heap[globals])
    {
      var stackTop := |stack|;
      stack := stack + [Nil];
      depth := 0;
      ReleaseVariableReferences();
      complete := IterateTable(GLOBALS);
      if !complete { stack := stack[..stackTop]; }
    }

    /** Reads only the saved variables in: the same promises, and nothing is walked when none is saved. */
    method GetSavedVars(anySaved: bool) returns (complete: bool)
      requires Valid() && !savedOnly
      modifies this
      ensures !savedOnly
      ensures stack == old(stack) && Valid() && Others() == old(Others())
      ensures old(log) <= log && Below(log[|old(log)|..], 0)
      ensures Counted([], log[|old(log)|..], complete)
      ensures complete && anySaved ==> Level(log[|old(log)|..], 1) == heap[globals]
      ensures complete && anySaved ==> Unfolded(heap, replies, log, |old(log)|, |log|, 1, heap[globals])
      ensures !anySaved ==> complete && refs == [] && log == old(log)
    {
      var stackTop := |stack|;
      depth := 0;
      ReleaseVariableReferences();
      if !anySaved { return true; }
      savedOnly := true;
      stack := stack + [Nil];
      complete := IterateTable(GLOBALS);
      if !complete { stack := stack[..stackTop]; }
      savedOnly := false;
    }
  }
}
