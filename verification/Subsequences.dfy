/** Places in a list, in order: how a list that was picked out of another is tied to it. */
module Subsequences {

  /** Ascending places in a list of length n. */
  ghost predicate Places(at: seq<int>, n: nat) {
    && (forall i :: 0 <= i < |at| ==> 0 <= at[i] < n)
    && (forall i, j :: 0 <= i < j < |at| ==> at[i] < at[j])
  }

  /** r lists, in order and each once, what `of` makes of its members, and these are the members of s that
      pass the test. */
  ghost predicate PickedAt<S, T>(s: seq<S>, test: S -> bool, r: seq<T>, of: T -> S, at: seq<int>) {
    && Places(at, |s|) && |at| == |r|
    && (forall i :: 0 <= i < |at| ==> 0 <= at[i] < |s| && s[at[i]] == of(r[i]))
    && (forall k :: 0 <= k < |s| ==> (test(s[k]) <==> k in at))
  }

  ghost predicate Picked<S, T>(s: seq<S>, test: S -> bool, r: seq<T>, of: T -> S) {
    exists at :: PickedAt(s, test, r, of, at)
  }

  lemma PickedNone<S, T>(test: S -> bool, of: T -> S)
    ensures Picked([], test, [], of)
  {
    assert PickedAt([], test, [], of, []);
  }

  lemma PickedSkips<S, T>(s: seq<S>, test: S -> bool, r: seq<T>, of: T -> S, x: S)
    requires Picked(s, test, r, of) && !test(x)
    ensures Picked(s + [x], test, r, of)
  {
    var at :| PickedAt(s, test, r, of, at);
    assert PickedAt(s + [x], test, r, of, at);
  }

  lemma PlacesGrow(at: seq<int>, n: nat)
    requires Places(at, n)
    ensures Places(at + [n], n + 1)
  {
  }

  lemma InSnoc<T>(s: seq<T>, x: T, y: T)
    ensures y in s + [x] <==> y in s || y == x
  {
  }

  lemma PickedTakes<S, T>(s: seq<S>, test: S -> bool, r: seq<T>, of: T -> S, x: S, y: T)
    requires Picked(s, test, r, of) && test(x) && x == of(y)
    ensures Picked(s + [x], test, r + [y], of)
  {
    var at :| PickedAt(s, test, r, of, at);
    var s', at' := s + [x], at + [|s|];
    PlacesGrow(at, |s|);
    forall k | 0 <= k < |s'| ensures test(s'[k]) <==> k in at' {
      InSnoc(at, |s|, k);
      assert k == |s| ==> k !in at;
    }
    hide Places;
    assert PickedAt(s', test, r + [y], of, at');
  }
}
