/** The running minimum and maximum height of the queue, as values. */
module HeightBracket {
  import opened CachedBlocks
  import opened SeqMultisets

  datatype Bracket = Bracket(min: int, max: int) {
    predicate Holds(h: int) {
      min <= h <= max
    }

    /** updateMinMax */
    function Widen(h: int): Bracket {
      Bracket(if h < min then h else min, if h > max then h else max)
    }

    /** RescanMinMax: a rescan never narrows. */
    function WidenAll(hs: seq<int>): Bracket
      decreases |hs|
    {
      if hs == [] then this else Widen(hs[0]).WidenAll(hs[1..])
    }

    /** RescanMinMaxForRemove, after the block of height `removed` is gone. */
    function AfterRemove(removed: int, hs: seq<int>): Bracket {
      if removed == min || removed == max then WidenAll(hs) else this
    }

    /** RescanMinMaxForUpdate, after height `removed` became `added`. */
    function AfterUpdate(added: int, removed: int, hs: seq<int>): Bracket {
      var b := if (removed == min && added >= removed) || (removed == max && added <= removed)
               then WidenAll(hs) else this;
      b.Widen(added)
    }

    ghost predicate Encloses(hs: multiset<int>) {
      forall h <- hs :: Holds(h)
    }

    /** Both ends are heights of the queue, or nothing is queued and the bracket is as created. */
    ghost predicate Exact(hs: multiset<int>) {
      Encloses(hs) && if hs == multiset{} then this == EMPTY else min in hs && max in hs
    }
  }

  /** The bracket of a new queue. */
  const EMPTY := Bracket(MAX_UINT32, -1)

  function Heights(es: seq<Entry>): (hs: seq<int>)
    ensures |hs| == |es| && forall i :: 0 <= i < |es| ==> hs[i] == es[i].summary.height
  {
    seq(|es|, i requires 0 <= i < |es| => es[i].summary.height)
  }

  lemma {:induction false} WidenAllSnoc(b: Bracket, hs: seq<int>, h: int)
    ensures b.WidenAll(hs + [h]) == b.WidenAll(hs).Widen(h)
    decreases |hs|
  {
    if hs == [] {
      assert (hs + [h])[1..] == [];
    } else {
      WidenAllSnoc(b.Widen(hs[0]), hs[1..], h);
      assert (hs + [h])[1..] == hs[1..] + [h];
    }
  }

  /** A rescan takes in every height it sees and nothing else. */
  lemma {:induction false} WidenAllIs(b: Bracket, hs: seq<int>)
    ensures var r := b.WidenAll(hs);
      && r.min <= b.min && b.max <= r.max
      && (forall h <- hs :: r.Holds(h))
      && (r.min == b.min || r.min in hs) && (r.max == b.max || r.max in hs)
    decreases |hs|
  {
    if hs != [] {
      WidenAllIs(b.Widen(hs[0]), hs[1..]);
      assert hs == [hs[0]] + hs[1..];
    }
  }

  lemma RescanOfEnclosedIsIdle(b: Bracket, hs: seq<int>)
    requires b.Encloses(multiset(hs))
    ensures b.WidenAll(hs) == b
  {
    WidenAllIs(b, hs);
    var r := b.WidenAll(hs);
    assert forall h <- hs :: h in multiset(hs);
  }

  /** Where a height at an end of the bracket goes, the bracket encloses what is queued afterwards, whatever it was
      before: a removal at an end, or a replacement that moves away from one, looks at all heights. */
  lemma RescanCatchesUp(b: Bracket, hs: seq<int>, added: int, removed: int)
    requires removed == b.min || removed == b.max
    ensures b.AfterRemove(removed, hs).Encloses(multiset(hs))
    ensures (removed == b.min && added >= removed) || (removed == b.max && added <= removed) ==>
      b.AfterUpdate(added, removed, hs).Encloses(multiset(hs))
  {
    WidenAllIs(b, hs);
    forall h <- multiset(hs) ensures h in hs {
    }
  }

  /** Widening by the new height keeps an exact bracket exact when the queue only grows. */
  lemma GrowingStaysExact(b: Bracket, hs: multiset<int>, h: int)
    requires b.Exact(hs) && 0 <= h <= MAX_UINT32
    ensures b.Widen(h).Exact(hs + multiset{h})
  {
  }

  /** Replacing a height keeps the bracket enclosing, and widens it by the new height only. */
  lemma ReplacedEncloses(b: Bracket, hs: seq<int>, added: int, removed: int, before: multiset<int>)
    requires b.Encloses(before) && removed in before
    requires multiset(hs) == before - multiset{removed} + multiset{added}
    ensures b.AfterUpdate(added, removed, hs) == b.Widen(added)
    ensures b.AfterUpdate(added, removed, hs).Encloses(multiset(hs))
  {
    var after := multiset(hs);
    WidenAllIs(b, hs);
    var w := b.WidenAll(hs);
    assert forall h <- hs :: h in after;
    assert forall h <- after :: h == added || h in before;
    assert added in after && added in hs;
    assert w.Holds(added);
  }

  /** It keeps an exact bracket exact if and only if the height that left still lies within the heights of
      the queue. */
  lemma ReplacedExact(b: Bracket, added: int, removed: int, before: multiset<int>, after: multiset<int>)
    requires b.Exact(before) && removed in before
    requires after == before - multiset{removed} + multiset{added}
    ensures b.Widen(added).Exact(after) <==>
      exists lo, hi :: lo in after && hi in after && lo <= removed <= hi
  {
    var r := b.Widen(added);
    assert added in after;
    assert forall h <- after :: h == added || h in before;
    assert forall h <- before :: h == removed || h in after;
    if r.Exact(after) {
      assert r.min in after && r.max in after && r.min <= removed <= r.max;
    }
  }

  /** Removing a height keeps the bracket enclosing, but never moves it. */
  lemma RemovingBracket(b: Bracket, hs: seq<int>, removed: int, before: multiset<int>)
    requires b.Encloses(before) && removed in before && multiset(hs) == before - multiset{removed}
    ensures b.AfterRemove(removed, hs) == b && b.Encloses(multiset(hs))
  {
    RescanOfEnclosedIsIdle(b, hs);
  }

  lemma HeightsWithout(es: seq<Entry>, k: nat)
    requires k < |es|
    ensures multiset(Heights(Without(es, k))) == multiset(Heights(es)) - multiset{es[k].summary.height}
    ensures es[k].summary.height in multiset(Heights(es))
  {
    RemoveOne(Heights(es), k);
    assert Heights(Without(es, k)) == Without(Heights(es), k);
  }

  lemma {:induction false} HeightsOfPermutation(es: seq<Entry>, fs: seq<Entry>)
    requires multiset(es) == multiset(fs)
    ensures multiset(Heights(es)) == multiset(Heights(fs))
    decreases |es|
  {
    if es == [] {
      assert |multiset(fs)| == 0;
    } else {
      assert es[0] in multiset(es);
      var k := IndexOf(fs, es[0]);
      RemoveSame(es, fs, 0, k);
      HeightsOfPermutation(Without(es, 0), Without(fs, k));
      HeightsWithout(es, 0);
      HeightsWithout(fs, k);
      PutBack(multiset(Heights(es)), multiset(Heights(fs)), es[0].summary.height);
    }
  }

  /** Exchanging one entry for another, in whatever order, exchanges one height. */
  lemma HeightsOfExchange(es: seq<Entry>, fs: seq<Entry>, e: Entry, f: Entry)
    requires e in multiset(es) && multiset(fs) == multiset(es) - multiset{e} + multiset{f}
    ensures multiset(Heights(fs)) ==
      multiset(Heights(es)) - multiset{e.summary.height} + multiset{f.summary.height}
    ensures e.summary.height in multiset(Heights(es))
  {
    var k :| 0 <= k < |es| && es[k] == e;
    var gs := es[k := f];
    HeightsOfPermutation(fs, gs);
    assert Heights(gs) == Heights(es)[k := f.summary.height];
    assert Heights(es)[k] == e.summary.height;
  }

  lemma HeightsOfInsertion(es: seq<Entry>, fs: seq<Entry>, f: Entry)
    requires multiset(fs) == multiset(es) + multiset{f}
    ensures multiset(Heights(fs)) == multiset(Heights(es)) + multiset{f.summary.height}
  {
    HeightsOfPermutation(fs, es + [f]);
    assert Heights(es + [f]) == Heights(es) + [f.summary.height];
  }

  lemma HeightsOfRemoval(es: seq<Entry>, fs: seq<Entry>, e: Entry)
    requires e in multiset(es) && multiset(fs) == multiset(es) - multiset{e}
    ensures multiset(Heights(fs)) == multiset(Heights(es)) - multiset{e.summary.height}
    ensures e.summary.height in multiset(Heights(es))
  {
    HeightsOfInsertion(fs, es, e);
  }
}
