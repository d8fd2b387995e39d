/**
  Undoing a deletion of siblings puts them back one at a time, last listed first,
  each at the position recorded for it (src/EditorDeleteItemCommand.cpp, undo).
  The editor records those positions before anything is deleted
  (src/dlgTriggerEditor.cpp, delete_alias), and this says exactly when that
  gives the original order back.
*/
module RestorePositions {

  // ---------------------------------------------------------------- sibling lists

  // A sibling is named by its position before the deletion.

  function InsertAt<T>(s: seq<T>, pos: nat, x: T): (r: seq<T>)
    ensures |r| == |s| + 1
  {
    if pos >= |s| then s + [x] else s[..pos] + [x] + s[pos..]
  }

  /** Every listed sibling goes back to its recorded position, the last listed first. */
  function PutBack(s: seq<nat>, ps: seq<nat>): (r: seq<nat>)
    ensures |r| == |s| + |ps|
  {
    if ps == [] then s else InsertAt(PutBack(s, ps[1..]), ps[0], ps[0])
  }

  /** The siblings below `n` that are not listed, in order. */
  function Kept(n: nat, ps: seq<nat>): seq<nat> {
    if n == 0 then [] else Kept(n - 1, ps) + if n - 1 in ps then [] else [n - 1]
  }

  function Upto(n: nat): (r: seq<nat>)
    ensures |r| == n && forall i :: 0 <= i < n ==> r[i] == i
  {
    if n == 0 then [] else Upto(n - 1) + [n - 1]
  }

  /**
    When entry `k` is put back, its position is right: either nothing before it is
    still missing, or everything after it is.
  */
  predicate Fits(n: nat, ps: seq<nat>, k: nat)
    requires k < |ps|
  {
    (forall j :: 0 <= j < k ==> ps[k] < ps[j]) || (forall v: nat :: ps[k] < v < n ==> v in ps[..k])
  }

  predicate Increasing(s: seq<nat>) {
    forall i, j :: 0 <= i < j < |s| ==> s[i] < s[j]
  }

  /** The listed positions are distinct and in range. */
  predicate Selection(n: nat, ps: seq<nat>) {
    (forall i :: 0 <= i < |ps| ==> ps[i] < n) && forall i, j :: 0 <= i < j < |ps| ==> ps[i] != ps[j]
  }

  lemma {:induction false} InsertMembers<T>(s: seq<T>, pos: nat, x: T, y: T)
    ensures y in InsertAt(s, pos, x) <==> y in s || y == x
  {
    if pos < |s| {
      assert s == s[..pos] + s[pos..];
    }
  }

  lemma {:induction false} PutBackMembers(s: seq<nat>, ps: seq<nat>, v: nat)
    ensures v in PutBack(s, ps) <==> v in s || v in ps
  {
    if ps != [] {
      PutBackMembers(s, ps[1..], v);
      InsertMembers(PutBack(s, ps[1..]), ps[0], ps[0], v);
      assert ps == [ps[0]] + ps[1..];
    }
  }

  lemma {:induction false} KeptFacts(n: nat, ps: seq<nat>)
    ensures Increasing(Kept(n, ps)) && forall v: nat :: v in Kept(n, ps) <==> v < n && v !in ps
  {
    if n > 0 {
      KeptFacts(n - 1, ps);
      var s := Kept(n - 1, ps);
      forall i | 0 <= i < |s| ensures s[i] < n - 1 { assert s[i] in s; }
    }
  }

  lemma {:induction false} AtLeast(s: seq<nat>, i: nat)
    requires Increasing(s) && i < |s|
    ensures s[i] >= i
  {
    if i > 0 { AtLeast(s, i - 1); }
  }

  /** An increasing list that holds everything below `p` starts with exactly that. */
  lemma {:induction false} FirstPart(s: seq<nat>, p: nat, i: nat)
    requires Increasing(s) && (forall v: nat :: v < p ==> v in s) && i < p
    ensures i < |s| && s[i] == i
  {
    if i > 0 { FirstPart(s, p, i - 1); }
    assert i in s;
    var k :| 0 <= k < |s| && s[k] == i;
    if k > i { AtLeast(s, i); }
    if k < i { FirstPart(s, p, k); }
  }

  /** Where an element of the list is after an insertion. */
  function Shifted<T>(s: seq<T>, pos: nat, i: nat): (j: nat)
    requires i < |s|
    ensures j <= |s|
  {
    if i < pos then i else i + 1
  }

  lemma {:induction false} InsertIndex<T>(s: seq<T>, pos: nat, x: T, i: nat)
    requires i < |s|
    ensures InsertAt(s, pos, x)[Shifted(s, pos, i)] == s[i]
    ensures InsertAt(s, pos, x)[if pos >= |s| then |s| else pos] == x
  {
  }

  lemma {:induction false} InsertOrder(s: seq<nat>, pos: nat, x: nat)
    requires Increasing(InsertAt(s, pos, x))
    ensures Increasing(s)
    ensures forall i :: 0 <= i < |s| ==> if i < pos then s[i] < x else x < s[i]
  {
    forall i | 0 <= i < |s| ensures if i < pos then s[i] < x else x < s[i] { InsertIndex(s, pos, x, i); }
    forall i, j | 0 <= i < j < |s| ensures s[i] < s[j] {
      InsertIndex(s, pos, x, i);
      InsertIndex(s, pos, x, j);
    }
  }

  lemma {:induction false} InsertKeepsOrder(s: seq<nat>, pos: nat, x: nat)
    requires Increasing(s) && forall i :: 0 <= i < |s| ==> if i < pos then s[i] < x else x < s[i]
    ensures Increasing(InsertAt(s, pos, x))
  {
  }

  /** Inserting `p` at position `p` keeps the order exactly when everything below `p` is there or nothing above is. */
  lemma {:induction false} InsertExact(s: seq<nat>, p: nat)
    requires p !in s
    ensures Increasing(InsertAt(s, p, p)) <==>
            Increasing(s) && ((forall v: nat :: v < p ==> v in s) || (forall v: nat :: v in s ==> v < p))
  {
    if Increasing(InsertAt(s, p, p)) {
      InsertOrder(s, p, p);
      if v: nat :| v in s && v >= p {
        var k :| 0 <= k < |s| && s[k] == v;
        forall i: nat | i < p ensures i in s {
          AllBelow(s, p, i);
        }
      }
    }
    if Increasing(s) && forall v: nat :: v < p ==> v in s {
      forall i | 0 <= i < |s| ensures if i < p then s[i] < p else p < s[i] {
        if i < p { FirstPart(s, p, i); } else { AtLeast(s, i); assert s[i] in s; }
      }
      InsertKeepsOrder(s, p, p);
    }
    if Increasing(s) && forall v: nat :: v in s ==> v < p {
      forall i | 0 <= i < |s| ensures i < p && s[i] < p { AtLeast(s, i); assert s[i] in s; }
      InsertKeepsOrder(s, p, p);
    }
  }

  lemma {:induction false} AllBelow(s: seq<nat>, p: nat, i: nat)
    requires Increasing(s) && p < |s| && i < p && forall j :: 0 <= j < p ==> s[j] < p
    ensures s[i] == i
    decreases p - i
  {
    AtLeast(s, i);
    if i + 1 < p { AllBelow(s, p, i + 1); }
  }

  lemma {:induction false} SelectedApart(n: nat, ps: seq<nat>, k: nat)
    requires Selection(n, ps) && k <= |ps|
    ensures forall v: nat :: v in ps[..k] ==> v !in ps[k..]
  {
    var a, b := ps[..k], ps[k..];
    forall i, j | 0 <= i < |a| && 0 <= j < |b| ensures a[i] != b[j] { assert ps[i] != ps[k + j]; }
  }

  lemma {:induction false} PutBackStep(n: nat, ps: seq<nat>, k: nat)
    requires Selection(n, ps) && k < |ps|
    ensures Increasing(PutBack(Kept(n, ps), ps[k..])) <==>
            Increasing(PutBack(Kept(n, ps), ps[k + 1..])) && Fits(n, ps, k)
  {
    var s := PutBack(Kept(n, ps), ps[k + 1..]);
    var p := ps[k];
    KeptFacts(n, ps);
    assert ps[k..][1..] == ps[k + 1..] && ps[k..][0] == p;
    forall v: nat ensures v in s <==> v < n && v !in ps[..k + 1] {
      PutBackMembers(Kept(n, ps), ps[k + 1..], v);
      assert ps == ps[..k + 1] + ps[k + 1..];
      SelectedApart(n, ps, k + 1);
    }
    assert ps[..k + 1] == ps[..k] + [p];
    InsertExact(s, p);
    FitsMeans(n, ps, k, s);
  }

  lemma {:induction false} FitsMeans(n: nat, ps: seq<nat>, k: nat, s: seq<nat>)
    requires Selection(n, ps) && k < |ps| && forall v: nat :: v in s <==> v < n && v !in ps[..k] + [ps[k]]
    ensures Fits(n, ps, k) <==> (forall v: nat :: v < ps[k] ==> v in s) || (forall v: nat :: v in s ==> v < ps[k])
  {
    var p := ps[k];
    assert (forall j :: 0 <= j < k ==> p < ps[j]) <==> (forall v: nat :: v < p ==> v in s) by {
      if forall v: nat :: v < p ==> v in s {
        forall j | 0 <= j < k ensures p < ps[j] {
          assert ps[..k][j] == ps[j] && ps[j] in ps[..k];
          assert ps[j] !in s;
        }
      }
    }
    assert (forall v: nat :: p < v < n ==> v in ps[..k]) <==> (forall v: nat :: v in s ==> v < p) by {
      if forall v: nat :: v in s ==> v < p {
        forall v: nat | p < v < n ensures v in ps[..k] { assert v !in s; }
      }
      if forall v: nat :: p < v < n ==> v in ps[..k] {
        forall v: nat | v in s ensures v < p {}
      }
    }
  }

  lemma {:induction false} PutBackInOrder(n: nat, ps: seq<nat>, k: nat)
    requires Selection(n, ps) && k <= |ps|
    ensures Increasing(PutBack(Kept(n, ps), ps[k..])) <==> forall i :: k <= i < |ps| ==> Fits(n, ps, i)
    decreases |ps| - k
  {
    KeptFacts(n, ps);
    if k < |ps| {
      PutBackStep(n, ps, k);
      PutBackInOrder(n, ps, k + 1);
    } else {
      assert ps[k..] == [];
    }
  }

  lemma {:induction false} Complete(s: seq<nat>, n: nat)
    requires Increasing(s) && forall v: nat :: v in s <==> v < n
    ensures s == Upto(n)
  {
    if s != [] {
      AtLeast(s, |s| - 1);
      assert s[|s| - 1] in s;
    }
    forall i | 0 <= i < n ensures i < |s| && s[i] == i { FirstPart(s, n, i); }
    if n > 0 { FirstPart(s, n, n - 1); }
    assert |s| == n;
    var r := Upto(n);
    forall i | 0 <= i < n ensures s[i] == r[i] {}
  }

  /** The siblings are back in their original order precisely when every entry fits. */
  lemma {:induction false} PutBackExact(n: nat, ps: seq<nat>)
    requires Selection(n, ps)
    ensures PutBack(Kept(n, ps), ps) == Upto(n) <==> forall k :: 0 <= k < |ps| ==> Fits(n, ps, k)
  {
    var s := PutBack(Kept(n, ps), ps);
    assert ps[0..] == ps;
    PutBackInOrder(n, ps, 0);
    if Increasing(s) {
      KeptFacts(n, ps);
      forall v: nat ensures v in s <==> v < n { PutBackMembers(Kept(n, ps), ps, v); }
      Complete(s, n);
    }
  }

  /** Listing the siblings bottom-up always works. */
  lemma {:induction false} BottomUpWorks(n: nat, ps: seq<nat>)
    requires Selection(n, ps) && forall i, j :: 0 <= i < j < |ps| ==> ps[i] > ps[j]
    ensures PutBack(Kept(n, ps), ps) == Upto(n)
  {
    forall k | 0 <= k < |ps| ensures Fits(n, ps, k) {}
    PutBackExact(n, ps);
  }

  /** Listing three or more siblings top-down never does; two only if the second is the last sibling of all. */
  lemma {:induction false} TopDownReorders(n: nat, ps: seq<nat>)
    requires Selection(n, ps) && Increasing(ps)
    ensures PutBack(Kept(n, ps), ps) == Upto(n) <==> |ps| <= 1 || (|ps| == 2 && ps[1] == n - 1)
  {
    PutBackExact(n, ps);
    if |ps| > 1 {
      var k := |ps| - 1;
      assert ps[0] < ps[k];
      assert Fits(n, ps, k) <==> ps[k] == n - 1 by {
        if ps[k] < n - 1 {
          assert ps[k] + 1 !in ps[..k];
        }
      }
      if |ps| > 2 {
        assert ps[k] !in ps[..k - 1];
        assert ps[0] < ps[k - 1] < ps[k] < n;
        assert !Fits(n, ps, k - 1);
      }
    }
    if |ps| >= 1 { assert Fits(n, ps, 0); }
  }
}
