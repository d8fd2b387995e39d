/**
  The plan graph's validator and scheduler (scripts/graph_validate.py,
  scripts/graph_next.py): what the validator accepts, that its cycle check has
  nothing left to find, and that the scheduler never stalls on what it accepts.
*/
module PlanGraph {

  // ---------------------------------------------------------------- the table

  datatype Row = Row(name: string, deps: seq<string>)

  datatype Graph = Graph(order: seq<string>, deps: map<string, seq<string>>)

  /** The listed names in order, and each name's dependencies as its last row gives them. */
  function Parsed(rows: seq<Row>): Graph {
    if rows == [] then Graph([], map[])
    else
      var g := Parsed(rows[..|rows| - 1]);
      var r := rows[|rows| - 1];
      Graph(g.order + [r.name], g.deps[r.name := r.deps])
  }

  method Parse(rows: seq<Row>) returns (g: Graph)
    ensures g == Parsed(rows) && Complete(g)
  {
    var order: seq<string>, deps: map<string, seq<string>> := [], map[];
    var i := 0;
    while i < |rows|
      invariant 0 <= i <= |rows| && Graph(order, deps) == Parsed(rows[..i])
      invariant Complete(Graph(order, deps))
    {
      assert rows[..i + 1][..i] == rows[..i];
      order := order + [rows[i].name];
      deps := deps[rows[i].name := rows[i].deps];
      i := i + 1;
    }
    assert rows[..i] == rows;
    g := Graph(order, deps);
  }

  /** Exactly the listed names have dependencies recorded. */
  ghost predicate Complete(g: Graph) {
    forall n :: n in g.deps <==> n in g.order
  }

  /** The first position of a listed name. */
  function Position(order: seq<string>, n: string): (k: nat)
    requires n in order
    ensures k < |order| && order[k] == n && forall j :: 0 <= j < k ==> order[j] != n
  {
    if order[0] == n then 0 else 1 + Position(order[1..], n)
  }

  // ---------------------------------------------------------------- the validator

  predicate Before(g: Graph, dep: string, n: string)
    requires n in g.order
  {
    dep in g.deps && dep in g.order && Position(g.order, dep) < Position(g.order, n)
  }

  /** Every dependency is listed, and first listed before the node that needs it. */
  ghost predicate Ordered(g: Graph)
    requires Complete(g)
  {
    forall n, i :: n in g.deps && 0 <= i < |g.deps[n]| ==> Before(g, g.deps[n][i], n)
  }

  /** The first check of the validator, over the dependency table in any order. */
  method CheckOrder(g: Graph) returns (ok: bool)
    requires Complete(g)
    ensures ok <==> Ordered(g)
  {
    var todo := g.deps.Keys;
    while todo != {}
      invariant todo <= g.deps.Keys
      invariant forall n, i :: n in g.deps && n !in todo && 0 <= i < |g.deps[n]| ==> Before(g, g.deps[n][i], n)
      decreases todo
    {
      var n :| n in todo;
      var ds := g.deps[n];
      var i := 0;
      while i < |ds|
        invariant 0 <= i <= |ds| && forall j :: 0 <= j < i ==> Before(g, ds[j], n)
      {
        if !Before(g, ds[i], n) {
          assert !Before(g, g.deps[n][i], n);
          return false;
        }
        i := i + 1;
      }
      todo := todo - {n};
    }
    ok := true;
  }

  ghost predicate DepsIn(g: Graph, n: string, names: set<string>) {
    n in g.deps && forall i :: 0 <= i < |g.deps[n]| ==> g.deps[n][i] in names
  }

  /** A set of names with all their dependencies. */
  ghost predicate Closed(g: Graph, names: set<string>) {
    forall n :: n in names ==> DepsIn(g, n, names)
  }

  /** Names first listed no later than position `k`. */
  ghost predicate UpTo(g: Graph, names: set<string>, k: nat) {
    forall m :: m in names ==> m in g.order && Position(g.order, m) <= k
  }

  ghost predicate Beyond(g: Graph, names: set<string>, k: nat) {
    forall m :: m in names ==> m in g.order && k < Position(g.order, m)
  }

  lemma {:induction false} CloseOne(g: Graph, names: set<string>, n: string)
    requires Closed(g, names) && DepsIn(g, n, names)
    ensures Closed(g, names + {n})
  {
    forall m | m in names + {n} ensures DepsIn(g, m, names + {n}) {
      assert DepsIn(g, m, names);
    }
  }

  lemma {:induction false} NeedsEarlier(g: Graph, n: string, i: nat, above: set<string>)
    requires Complete(g) && Ordered(g) && n in g.order && i < |g.deps[n]| && Beyond(g, above, Position(g.order, n))
    ensures var d := g.deps[n][i];
            d in g.order && Position(g.order, d) < Position(g.order, n) && Beyond(g, above + {n}, Position(g.order, d))
  {
    assert Before(g, g.deps[n][i], n);
  }

  lemma {:induction false} MoreUpTo(g: Graph, start: set<string>, before: set<string>, now: set<string>, k: nat,
                                    top: nat)
    requires UpTo(g, before - start, top) && UpTo(g, now - before, k) && k <= top
    ensures UpTo(g, now - start, top)
  {
  }

  /** The depth-first search, with the sets the source keeps. */
  class Search {
    const g: Graph
    var seen: set<string>
    var active: set<string>

    constructor (g: Graph)
      ensures this.g == g && seen == {} && active == {}
    {
      this.g := g;
      seen, active := {}, {};
    }

    /**
      Visits a name and everything it needs.  On an accepted graph it never meets
      an active name, always ends, and leaves the active set as it was.
    */
    method Visit(n: string) returns (cycle: bool)
      requires Complete(g) && Ordered(g) && n in g.order && Closed(g, seen)
      requires Beyond(g, active, Position(g.order, n))
      modifies this`seen, this`active
      ensures !cycle && active == old(active) && Closed(g, seen)
      ensures old(seen) <= seen && n in seen && UpTo(g, seen - old(seen), Position(g.order, n))
      decreases Position(g.order, n), 1
    {
      cycle := n in active;
      if cycle || n in seen { return; }
      active := active + {n};
      cycle := VisitNeeds(n);
      CloseOne(g, seen, n);
      active := active - {n};
      seen := seen + {n};
    }

    /** Visits what an active name needs, in turn. */
    method VisitNeeds(n: string) returns (cycle: bool)
      requires Complete(g) && Ordered(g) && n in g.order && Closed(g, seen)
      requires n in active && Beyond(g, active - {n}, Position(g.order, n))
      modifies this`seen, this`active
      ensures !cycle && active == old(active) && Closed(g, seen)
      ensures old(seen) <= seen && DepsIn(g, n, seen) && UpTo(g, seen - old(seen), Position(g.order, n))
      decreases Position(g.order, n), 0
    {
      cycle := false;
      var ds := g.deps[n];
      var i := 0;
      while i < |ds|
        invariant 0 <= i <= |ds| && active == old(active) && !cycle
        invariant Closed(g, seen) && old(seen) <= seen && UpTo(g, seen - old(seen), Position(g.order, n))
        invariant forall j :: 0 <= j < i ==> ds[j] in seen
      {
        ghost var before := seen;
        NeedsEarlier(g, n, i, active - {n});
        assert active - {n} + {n} == active;
        cycle := Visit(ds[i]);
        MoreUpTo(g, old(seen), before, seen, Position(g.order, ds[i]), Position(g.order, n));
        i := i + 1;
      }
    }

    /** The second check of the validator finds nothing on a graph that passed the first, and sees every name. */
    method CheckCycles() returns (cycle: bool)
      requires Complete(g) && Ordered(g) && seen == {} && active == {}
      modifies this`seen, this`active
      ensures !cycle && active == {} && forall n :: n in seen <==> n in g.order
    {
      cycle := false;
      var i := 0;
      while i < |g.order|
        invariant 0 <= i <= |g.order| && !cycle && active == {} && Closed(g, seen)
        invariant forall j :: 0 <= j < i ==> g.order[j] in seen
      {
        cycle := Visit(g.order[i]);
        i := i + 1;
      }
    }
  }

  // ---------------------------------------------------------------- the ledger

  datatype Status = Pending | InProgress | Blocked | Finished

  datatype Event = NodeDone | NodeBlocked | Lease | Takeover | Release | Unknown

  datatype Entry = Entry(node: string, event: Event)

  /** One node's status: the last event about it that says anything, read backwards. */
  function StatusOf(n: string, ledger: seq<Entry>): Status {
    if ledger == [] then Pending
    else
      var e := ledger[|ledger| - 1];
      var earlier := ledger[..|ledger| - 1];
      if e.node != n || e.event == Unknown then StatusOf(n, earlier)
      else
        match e.event
        case NodeDone => Finished
        case NodeBlocked => Blocked
        case Release => if StatusOf(n, earlier) == Finished then Finished else Pending
        case _ => InProgress
  }

  /** Entry `i` is one of these events about the node, and all later entries about it are of the kinds passed over. */
  ghost predicate LastSaid(ledger: seq<Entry>, n: string, i: nat, events: set<Event>, passed: set<Event>) {
    && i < |ledger| && ledger[i].node == n && ledger[i].event in events
    && forall j :: i < j < |ledger| && ledger[j].node == n ==> ledger[j].event in passed
  }

  ghost predicate Said(ledger: seq<Entry>, n: string, events: set<Event>, passed: set<Event>) {
    exists i: nat :: LastSaid(ledger, n, i, events, passed)
  }

  /**
    What the ledger says of a node: finished if nothing but releases came after it was
    done, blocked or in progress if nothing at all did, and otherwise pending.
  */
  ghost predicate Says(status: Status, n: string, ledger: seq<Entry>) {
    && (status == Finished <==> Said(ledger, n, {NodeDone}, {Release, Unknown}))
    && (status == Blocked <==> Said(ledger, n, {NodeBlocked}, {Unknown}))
    && (status == InProgress <==> Said(ledger, n, {Lease, Takeover}, {Unknown}))
  }

  lemma {:induction false} SaidBefore(ledger: seq<Entry>, n: string, events: set<Event>, passed: set<Event>)
    requires ledger != [] && events !! passed
    ensures var e := ledger[|ledger| - 1];
            Said(ledger, n, events, passed) <==>
              if e.node != n || e.event in passed then Said(ledger[..|ledger| - 1], n, events, passed)
              else e.event in events
  {
    var k: nat := |ledger| - 1;
    var e, earlier := ledger[k], ledger[..k];
    if Said(ledger, n, events, passed) {
      var i: nat :| LastSaid(ledger, n, i, events, passed);
      if i < k { assert LastSaid(earlier, n, i, events, passed); }
    }
    if e.node == n && e.event in events { assert LastSaid(ledger, n, k, events, passed); }
    if (e.node != n || e.event in passed) && Said(earlier, n, events, passed) {
      var i: nat :| LastSaid(earlier, n, i, events, passed);
      assert LastSaid(ledger, n, i, events, passed) by {
        forall j: nat | i < j < |ledger| && ledger[j].node == n ensures ledger[j].event in passed {
          if j < k { assert earlier[j] == ledger[j]; }
        }
      }
    }
  }

  lemma {:induction false} StatusSaid(n: string, ledger: seq<Entry>)
    ensures Says(StatusOf(n, ledger), n, ledger)
  {
    if ledger != [] {
      StatusSaid(n, ledger[..|ledger| - 1]);
      SaidBefore(ledger, n, {NodeDone}, {Release, Unknown});
      SaidBefore(ledger, n, {NodeBlocked}, {Unknown});
      SaidBefore(ledger, n, {Lease, Takeover}, {Unknown});
    }
  }

  /** The fold over the ledger gives each listed node the status its own entries say. */
  method Statuses(order: seq<string>, ledger: seq<Entry>) returns (state: map<string, Status>)
    ensures forall n :: n in state <==> n in order
    ensures forall n :: n in order ==> state[n] == StatusOf(n, ledger) && Says(state[n], n, ledger)
  {
    state := map n | n in order :: Pending;
    var i := 0;
    while i < |ledger|
      invariant 0 <= i <= |ledger|
      invariant forall n :: n in state <==> n in order
      invariant forall n :: n in order ==> state[n] == StatusOf(n, ledger[..i])
    {
      var e := ledger[i];
      assert ledger[..i + 1][..i] == ledger[..i];
      if e.node in state {
        match e.event {
          case NodeDone => state := state[e.node := Finished];
          case NodeBlocked => state := state[e.node := Blocked];
          case Lease => state := state[e.node := InProgress];
          case Takeover => state := state[e.node := InProgress];
          case Release => if state[e.node] != Finished { state := state[e.node := Pending]; }
          case Unknown =>
        }
      }
      i := i + 1;
    }
    assert ledger[..i] == ledger;
    forall n | n in order ensures Says(state[n], n, ledger) { StatusSaid(n, ledger); }
  }

  // ---------------------------------------------------------------- the scheduler

  datatype Answer = Stopped(node: string) | Resume(node: string) | Next(node: string) | AllDone | Stall(node: string)

  ghost predicate Covers(order: seq<string>, state: map<string, Status>) {
    forall n :: n in order ==> n in state
  }

  predicate Startable(g: Graph, state: map<string, Status>, n: string)
    requires n in g.deps && n in state
  {
    state[n] == Pending && forall i :: 0 <= i < |g.deps[n]| ==> g.deps[n][i] in state && state[g.deps[n][i]] == Finished
  }

  /** The first listed name with this status. */
  ghost predicate FirstWith(order: seq<string>, state: map<string, Status>, n: string, status: Status)
    requires Covers(order, state)
  {
    n in order && state[n] == status && forall j :: 0 <= j < Position(order, n) ==> state[order[j]] != status
  }

  /** The first listed name that can be started. */
  ghost predicate FirstStartable(g: Graph, state: map<string, Status>, n: string)
    requires Complete(g) && Covers(g.order, state)
  {
    n in g.order && Startable(g, state, n) && forall j :: 0 <= j < Position(g.order, n) ==>
        !Startable(g, state, g.order[j])
  }

  /** No listed name has this status. */
  ghost predicate None(order: seq<string>, state: map<string, Status>, status: Status)
    requires Covers(order, state)
  {
    forall n :: n in order ==> state[n] != status
  }

  ghost predicate NoneStartable(g: Graph, state: map<string, Status>)
    requires Complete(g) && Covers(g.order, state)
  {
    forall n :: n in g.order ==> !Startable(g, state, n)
  }

  /** Every listed name is pending or finished. */
  ghost predicate Settled(order: seq<string>, state: map<string, Status>)
    requires Covers(order, state)
  {
    None(order, state, Blocked) && None(order, state, InProgress)
  }

  ghost predicate Correct(g: Graph, state: map<string, Status>, a: Answer)
    requires Complete(g) && Covers(g.order, state)
  {
    match a
    case Stopped(n) => FirstWith(g.order, state, n, Blocked)
    case Resume(n) => None(g.order, state, Blocked) && FirstWith(g.order, state, n, InProgress)
    case Next(n) => Settled(g.order, state) && FirstStartable(g, state, n)
    case AllDone => Settled(g.order, state) && None(g.order, state, Pending)
    case Stall(n) => Settled(g.order, state) && NoneStartable(g, state) && FirstWith(g.order, state, n, Pending)
  }

  ghost predicate Known(g: Graph) {
    Complete(g) && forall n, i :: n in g.deps && 0 <= i < |g.deps[n]| ==> g.deps[n][i] in g.order
  }

  lemma {:induction false} PositionAt(order: seq<string>, k: nat)
    requires k < |order|
    ensures Position(order, order[k]) <= k
  {
  }

  /** Scans for the first name with this status. */
  method Scan(order: seq<string>, state: map<string, Status>, status: Status) returns (found: bool, n: string)
    requires Covers(order, state)
    ensures if found then FirstWith(order, state, n, status) else None(order, state, status)
  {
    var i := 0;
    while i < |order|
      invariant 0 <= i <= |order| && forall j :: 0 <= j < i ==> state[order[j]] != status
    {
      if state[order[i]] == status {
        PositionAt(order, i);
        return true, order[i];
      }
      i := i + 1;
    }
    return false, "";
  }

  method ScanStartable(g: Graph, state: map<string, Status>) returns (found: bool, n: string)
    requires Known(g) && Covers(g.order, state)
    ensures if found then FirstStartable(g, state, n) else NoneStartable(g, state)
  {
    var i := 0;
    while i < |g.order|
      invariant 0 <= i <= |g.order| && forall j :: 0 <= j < i ==> !Startable(g, state, g.order[j])
    {
      if Startable(g, state, g.order[i]) {
        PositionAt(g.order, i);
        return true, g.order[i];
      }
      i := i + 1;
    }
    return false, "";
  }

  lemma {:induction false} UndoneIsPending(order: seq<string>, state: map<string, Status>, i: nat)
    requires Covers(order, state) && Settled(order, state) && i < |order| && state[order[i]] != Finished
    requires forall j :: 0 <= j < i ==> state[order[j]] == Finished
    ensures FirstWith(order, state, order[i], Pending)
  {
    PositionAt(order, i);
  }

  /** The scheduler's choice; a name that is not listed would make the source fail on its lookup. */
  method Choose(g: Graph, state: map<string, Status>) returns (a: Answer)
    requires Known(g) && Covers(g.order, state)
    ensures Correct(g, state, a)
  {
    var found, n := Scan(g.order, state, Blocked);
    if found { return Stopped(n); }
    found, n := Scan(g.order, state, InProgress);
    if found { return Resume(n); }
    found, n := ScanStartable(g, state);
    if found { return Next(n); }
    var i := 0;
    while i < |g.order|
      invariant 0 <= i <= |g.order| && forall j :: 0 <= j < i ==> state[g.order[j]] == Finished
    {
      if state[g.order[i]] != Finished {
        UndoneIsPending(g.order, state, i);
        return Stall(g.order[i]);
      }
      i := i + 1;
    }
    a := AllDone;
  }

  // ---------------------------------------------------------------- no stall

  /** The first unfinished name of an accepted graph has everything it needs. */
  lemma {:induction false} FirstPendingStarts(g: Graph, state: map<string, Status>, n: string)
    requires Complete(g) && Ordered(g) && Covers(g.order, state) && Settled(g.order, state)
    requires FirstWith(g.order, state, n, Pending)
    ensures Startable(g, state, n)
  {
    forall i | 0 <= i < |g.deps[n]| ensures g.deps[n][i] in state && state[g.deps[n][i]] == Finished {
      var d := g.deps[n][i];
      assert Before(g, d, n);
      assert g.order[Position(g.order, d)] == d;
    }
  }

  /** On a graph the validator accepts, the scheduler never reports a stall, whatever the ledger says. */
  lemma {:induction false} NeverStalls(g: Graph, state: map<string, Status>, a: Answer)
    requires Complete(g) && Ordered(g) && Covers(g.order, state) && Correct(g, state, a)
    ensures !a.Stall?
  {
    if a.Stall? {
      FirstPendingStarts(g, state, a.node);
      assert false;
    }
  }

  /** A graph the validator rejects can stall: two nodes that need each other. */
  lemma {:induction false} CycleStalls()
    ensures var g := Graph(["a", "b"], map["a" := ["b"], "b" := ["a"]]);
            var state := map["a" := Pending, "b" := Pending];
            Complete(g) && !Ordered(g) && Correct(g, state, Stall("a"))
  {
    var g := Graph(["a", "b"], map["a" := ["b"], "b" := ["a"]]);
    var state := map["a" := Pending, "b" := Pending];
    assert g.order[0] == "a" && g.order[1] == "b";
    assert g.deps["a"][0] == "b" && g.deps["b"][0] == "a";
    assert Position(g.order, "a") == 0;
    assert !Before(g, g.deps["a"][0], "a");
    assert !Startable(g, state, "a") && !Startable(g, state, "b");
  }

  // ---------------------------------------------------------------- working through the graph

  /** Following the answers: each pick is the scheduler's, and is finished before the next is asked for. */
  ghost predicate Worked(g: Graph, state: map<string, Status>, picks: seq<string>)
    requires Complete(g) && Covers(g.order, state)
    decreases |picks|
  {
    if picks == [] then Correct(g, state, AllDone)
    else Correct(g, state, Next(picks[0])) && Worked(g, state[picks[0] := Finished], picks[1..])
  }

  function PendingNodes(g: Graph, state: map<string, Status>): set<string> {
    set n | n in g.order && n in state && state[n] == Pending
  }

  lemma {:induction false} FindStart(g: Graph, state: map<string, Status>, k: nat, m: string) returns (n: string)
    requires Complete(g) && Covers(g.order, state) && k <= |g.order|
    requires forall j :: 0 <= j < k ==> !Startable(g, state, g.order[j])
    requires m in g.order && Startable(g, state, m)
    ensures FirstStartable(g, state, n)
    decreases |g.order| - k
  {
    if k < |g.order| && Startable(g, state, g.order[k]) {
      n := g.order[k];
      PositionAt(g.order, k);
    } else {
      n := FindStart(g, state, k + 1, m);
    }
  }

  lemma {:induction false} FindPending(g: Graph, state: map<string, Status>, k: nat, m: string) returns (n: string)
    requires Covers(g.order, state) && k <= |g.order|
    requires forall j :: 0 <= j < k ==> state[g.order[j]] != Pending
    requires m in g.order && state[m] == Pending
    ensures FirstWith(g.order, state, n, Pending)
    decreases |g.order| - k
  {
    if k < |g.order| && state[g.order[k]] == Pending {
      n := g.order[k];
      PositionAt(g.order, k);
    } else {
      n := FindPending(g, state, k + 1, m);
    }
  }

  /** Finishing one pending node leaves the others as they were. */
  lemma {:induction false} FinishOne(g: Graph, state: map<string, Status>, n: string)
    requires Covers(g.order, state) && Settled(g.order, state) && n in g.order && state[n] == Pending
    ensures Covers(g.order, state[n := Finished]) && Settled(g.order, state[n := Finished])
    ensures n in PendingNodes(g, state) && PendingNodes(g, state[n := Finished]) == PendingNodes(g, state) - {n}
  {
  }

  /**
    With no node blocked or in progress, doing what the scheduler says and nothing
    else finishes every node of an accepted graph, each pending one exactly once.
  */
  lemma {:induction false} EverythingGetsDone(g: Graph, state: map<string, Status>) returns (picks: seq<string>)
    requires Complete(g) && Ordered(g) && Covers(g.order, state) && Settled(g.order, state)
    ensures Worked(g, state, picks)
    ensures |picks| == |PendingNodes(g, state)| && forall n :: n in picks <==> n in PendingNodes(g, state)
    decreases |PendingNodes(g, state)|
  {
    var todo := PendingNodes(g, state);
    if todo == {} {
      forall n | n in g.order ensures state[n] != Pending { assert n !in todo; }
      picks := [];
    } else {
      var m :| m in todo;
      var p := FindPending(g, state, 0, m);
      FirstPendingStarts(g, state, p);
      var n := FindStart(g, state, 0, p);
      FinishOne(g, state, n);
      var rest := EverythingGetsDone(g, state[n := Finished]);
      picks := [n] + rest;
      assert picks[1..] == rest;
    }
  }
}
