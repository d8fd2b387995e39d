/** Notions several of the models share. */
module Common {

  datatype Option<+T> = None | Some(value: T)

  /** No number occurs twice. */
  predicate Distinct(s: seq<int>) {
    forall i, j :: 0 <= i < j < |s| ==> s[i] != s[j]
  }

  /** A set that is not empty has an element. */
  lemma {:induction false} Nonempty(s: set<int>)
    ensures s == {} || exists x :: x in s
  {
    if forall x :: x !in s { assert s == {}; }
  }
}
