/** Facts about sequences and their multisets used by several modules. */
module SeqMultisets {
  lemma ReplaceOne<T>(s: seq<T>, i: nat, x: T)
    requires i < |s|
    ensures multiset(s[i := x]) == multiset(s) - multiset{s[i]} + multiset{x}
    ensures s[i] in multiset(s)
  {
  }

  function Without<T>(s: seq<T>, i: nat): (r: seq<T>)
    requires i < |s|
    ensures |r| == |s| - 1
  {
    s[..i] + s[i + 1..]
  }

  lemma RemoveOne<T>(s: seq<T>, i: nat)
    requires i < |s|
    ensures multiset(Without(s, i)) == multiset(s) - multiset{s[i]}
    ensures s[i] in multiset(s)
  {
    assert s == s[..i] + [s[i]] + s[i + 1..];
  }

  lemma SplitLast<T>(s: seq<T>)
    requires s != []
    ensures multiset(s) == multiset(s[..|s| - 1]) + multiset{s[|s| - 1]}
  {
    assert s == s[..|s| - 1] + [s[|s| - 1]];
  }

  /** A rearrangement that ends in x, without its last element. */
  lemma DropLast<T>(s: seq<T>, t: seq<T>, x: T)
    requires |t| > 0 && multiset(t) == multiset(s) && t[|t| - 1] == x
    ensures multiset(t[..|t| - 1]) == multiset(s) - multiset{x}
  {
    assert t == t[..|t| - 1] + [x];
  }

  /** The same element taken out of two rearrangements of each other. */
  lemma RemoveSame<T>(s: seq<T>, t: seq<T>, i: nat, k: nat)
    requires i < |s| && k < |t| && s[i] == t[k] && multiset(s) == multiset(t)
    ensures multiset(Without(s, i)) == multiset(Without(t, k))
  {
    RemoveOne(s, i);
    RemoveOne(t, k);
  }

  lemma IndexOf<T>(s: seq<T>, x: T) returns (i: nat)
    requires x in multiset(s)
    ensures i < |s| && s[i] == x
  {
    i :| i < |s| && s[i] == x;
  }

  /** Two multisets that agree once a common member is taken out agree. */
  lemma PutBack<T>(a: multiset<T>, b: multiset<T>, x: T)
    requires x in a && x in b && a - multiset{x} == b - multiset{x}
    ensures a == b
  {
    assert a == (a - multiset{x}) + multiset{x};
    assert b == (b - multiset{x}) + multiset{x};
  }

  lemma CountLast<T>(s: seq<T>, x: T)
    requires s != []
    ensures multiset(s)[x] == multiset(s[..|s| - 1])[x] + if s[|s| - 1] == x then 1 else 0
  {
    assert s == s[..|s| - 1] + [s[|s| - 1]];
  }

  lemma CountJoined<T>(a: seq<T>, b: seq<T>, x: T)
    ensures multiset(a + b)[x] == multiset(a)[x] + multiset(b)[x]
  {
  }

  lemma NoneLeft<T>(s: seq<T>)
    requires multiset(s) == multiset{}
    ensures s == []
  {
    assert |multiset(s)| == 0;
  }
}
