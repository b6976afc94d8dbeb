/** The k greatest heights of a collection, and how a queue that evicts its least height keeps them. */
module TopHeights {
  import opened SeqMultisets

  /** `top` are the k greatest of `all`, or all of them if there are fewer. */
  ghost predicate IsTop(k: nat, all: multiset<int>, top: multiset<int>) {
    && top <= all
    && |top| == (if |all| < k then |all| else k)
    && forall x, y :: x in top && y in all - top ==> y <= x
  }

  ghost predicate IsLeast(m: int, hs: multiset<int>) {
    m in hs && forall x <- hs :: m <= x
  }

  /** What one offer of height h does to the queued heights. */
  ghost predicate OfferStep(k: nat, top: multiset<int>, h: int, after: multiset<int>) {
    if k == 0 then after == top
    else if |top| < k then after == top + multiset{h}
    else exists m :: IsLeast(m, top) && after == Replaced(top, m, h)
  }

  /** A height strictly above the least one takes its place. */
  ghost function Replaced(top: multiset<int>, m: int, h: int): multiset<int> {
    if m < h then top - multiset{m} + multiset{h} else top
  }

  lemma SameSize(s: multiset<int>, t: multiset<int>)
    requires s <= t && |s| == |t|
    ensures s == t
  {
    assert t == s + (t - s);
    assert |t - s| == 0;
  }

  lemma Member<T>(s: multiset<T>) returns (x: T)
    requires |s| > 0
    ensures x in s
  {
    x :| x in s;
  }

  lemma InDifference(all: multiset<int>, s: multiset<int>, t: multiset<int>, x: int)
    requires s <= all && x in s - t
    ensures x in s && x !in t - s && x in all - t
  {
  }

  /** The k greatest are determined. */
  lemma TopIsUnique(k: nat, all: multiset<int>, s: multiset<int>, t: multiset<int>)
    requires IsTop(k, all, s) && IsTop(k, all, t)
    ensures s == t
  {
    assert s == (s - t) + (s * t) && t == (t - s) + (s * t);
    if |s - t| == 0 {
      SameSize(s, t);
    } else if |t - s| == 0 {
      SameSize(t, s);
    } else {
      var x := Member(s - t);
      var y := Member(t - s);
      InDifference(all, s, t, x);
      InDifference(all, t, s, y);
    }
  }

  lemma NotFullIsAll(k: nat, all: multiset<int>, top: multiset<int>)
    requires IsTop(k, all, top) && |top| < k
    ensures top == all
  {
    SameSize(top, all);
  }

  lemma ReplacedIsTop(k: nat, all: multiset<int>, top: multiset<int>, m: int, h: int)
    requires IsTop(k, all, top) && IsLeast(m, top) && |top| == k
    ensures IsTop(k, all + multiset{h}, Replaced(top, m, h))
  {
    var rest := (all + multiset{h}) - Replaced(top, m, h);
    if m < h {
      assert rest == (all - top) + multiset{m};
    } else {
      assert rest == (all - top) + multiset{h};
    }
  }

  lemma OfferKeepsTop(k: nat, all: multiset<int>, top: multiset<int>, h: int, after: multiset<int>)
    requires IsTop(k, all, top) && OfferStep(k, top, h, after)
    ensures IsTop(k, all + multiset{h}, after)
  {
    if k == 0 {
      assert after == multiset{};
    } else if |top| < k {
      NotFullIsAll(k, all, top);
      assert (all + multiset{h}) - after == multiset{};
    } else {
      var m :| IsLeast(m, top) && after == Replaced(top, m, h);
      ReplacedIsTop(k, all, top, m, h);
    }
  }

  /** The heights queued after each offer of a run that starts with an empty queue. */
  ghost predicate OfferRun(k: nat, hs: seq<int>, tops: seq<multiset<int>>) {
    && |tops| == |hs| + 1 && tops[0] == multiset{}
    && forall i :: 0 <= i < |hs| ==> OfferStep(k, tops[i], hs[i], tops[i + 1])
  }

  /** After any sequence of offers the queue holds exactly the k greatest heights offered. */
  lemma {:induction false} RunHoldsTop(k: nat, hs: seq<int>, tops: seq<multiset<int>>)
    requires OfferRun(k, hs, tops)
    ensures IsTop(k, multiset(hs), tops[|hs|])
    decreases |hs|
  {
    hide IsTop, OfferStep;
    var n := |hs|;
    if n == 0 {
      TopOfNone(k);
    } else {
      RunHoldsTop(k, hs[..n - 1], tops[..n]);
      OfferKeepsTop(k, multiset(hs[..n - 1]), tops[n - 1], hs[n - 1], tops[n]);
      SplitLast(hs);
    }
  }

  lemma TopOfNone(k: nat)
    ensures IsTop(k, multiset{}, multiset{})
  {
  }
}
