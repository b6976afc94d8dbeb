/** What the operations of the block queue do to its contents and height bracket, told on values, and
    what follows for whole runs. */
module QueueRuns {
  import opened Options
  import opened CachedBlocks
  import opened SeqMultisets
  import opened HeapOrder
  import opened HeightBracket
  import opened TopHeights

  /** The entries of the queue in heap order, and its bracket. */
  datatype View = View(es: seq<Entry>, range: Bracket) {
    ghost function HeightSet(): multiset<int> {
      multiset(Heights(es))
    }
  }

  const CREATED := View([], EMPTY)

  /** One more entry. */
  ghost predicate Grows(v: View, w: View, e: Entry) {
    && |w.es| == |v.es| + 1
    && multiset(w.es) == multiset(v.es) + multiset{e}
    && w.range == v.range.Widen(e.summary.height)
  }

  /** Entry e became entry f. */
  ghost predicate Replaces(v: View, w: View, e: Entry, f: Entry) {
    && e in multiset(v.es) && |w.es| == |v.es|
    && multiset(w.es) == multiset(v.es) - multiset{e} + multiset{f}
    && w.range == v.range.AfterUpdate(f.summary.height, e.summary.height, Heights(w.es))
  }

  /** Entry e left. */
  ghost predicate Drops(v: View, w: View, e: Entry) {
    && e in multiset(v.es) && |w.es| == |v.es| - 1
    && multiset(w.es) == multiset(v.es) - multiset{e}
    && w.range == v.range.AfterRemove(e.summary.height, Heights(w.es))
  }

  ghost predicate Reorders(v: View, w: View) {
    multiset(w.es) == multiset(v.es) && |w.es| == |v.es| && w.range == v.range
  }

  /** The queue was filled anew, from these entries. */
  ghost predicate Resets(w: View, es: seq<Entry>) {
    multiset(w.es) == multiset(es) && |w.es| == |es| && w.range == EMPTY.WidenAll(Heights(es))
  }

  ghost predicate Step(v: View, w: View) {
    || (exists e :: Grows(v, w, e))
    || (exists e, f :: Replaces(v, w, e, f))
    || (exists e :: Drops(v, w, e))
    || Reorders(v, w)
    || (exists es :: Resets(w, es))
  }

  /** What Insert does to a queue of the given capacity. */
  ghost predicate Inserted(capacity: nat, less: Comparator, v: View, w: View, summary: BlockDataBasic,
                           t0: int, t1: int, added: bool, removed: Option<Hash>)
  {
    var candidate := Entry(summary, 1, t0);
    && added == (capacity > 0 && (|v.es| < capacity || less(v.es[0], candidate)))
    && (!added ==> removed.None? && w == v)
    && (added && |v.es| < capacity ==> removed.None? && Grows(v, w, candidate))
    && (added && |v.es| >= capacity ==>
        removed == Some(v.es[0].summary.hash) && Replaces(v, w, v.es[0], Entry(summary, 1, t1)))
  }

  lemma InsertedWhenFull(capacity: nat, less: Comparator, v: View, w: View, summary: BlockDataBasic, t0: int, t1: int)
    requires 0 < capacity <= |v.es|
    ensures less(v.es[0], Entry(summary, 1, t0)) && Replaces(v, w, v.es[0], Entry(summary, 1, t1)) ==>
      Inserted(capacity, less, v, w, summary, t0, t1, true, Some(v.es[0].summary.hash))
    ensures !less(v.es[0], Entry(summary, 1, t0)) && w == v ==>
      Inserted(capacity, less, v, w, summary, t0, t1, false, None)
  {
  }

  // ---------------------------------------------------------------------------------------------
  // Eviction

  ghost predicate IsMinimum(less: Comparator, es: seq<Entry>, e: Entry) {
    e in multiset(es) && forall x <- es :: !less(x, e)
  }

  /** Insert evicts a minimum of the queue, strictly below the newcomer, and keeps everything else; a
      newcomer is turned away only if it does not come after all of the queue. */
  lemma InsertEvictsMinimum(capacity: nat, less: Comparator, v: View, w: View, summary: BlockDataBasic,
                            t0: int, t1: int, added: bool, removed: Option<Hash>)
    requires StrictWeakOrder(less) && Ordered(less, v.es) && |v.es| <= capacity
    requires Inserted(capacity, less, v, w, summary, t0, t1, added, removed)
    ensures |w.es| <= capacity
    ensures removed.Some? ==> exists e ::
      && IsMinimum(less, v.es, e) && less(e, Entry(summary, 1, t0)) && removed == Some(e.summary.hash)
      && multiset(w.es) == multiset(v.es) - multiset{e} + multiset{Entry(summary, 1, t1)}
    ensures removed.None? ==> multiset(v.es) <= multiset(w.es)
    ensures !added && capacity > 0 ==> exists e :: IsMinimum(less, v.es, e) && !less(e, Entry(summary, 1, t0))
  {
    if capacity > 0 && |v.es| == capacity {
      forall x <- v.es ensures !less(x, v.es[0]) {
        var k :| 0 <= k < |v.es| && v.es[k] == x;
        RootIsMinimum(less, v.es, k);
      }
      assert v.es[0] in multiset(v.es);
      assert IsMinimum(less, v.es, v.es[0]);
    }
  }

  /** By height, Insert makes the step whose runs hold the greatest heights. */
  lemma InsertOffers(capacity: nat, v: View, w: View, summary: BlockDataBasic, t0: int, t1: int,
                     added: bool, removed: Option<Hash>)
    requires Ordered(LessByHeight, v.es) && |v.es| <= capacity
    requires Inserted(capacity, LessByHeight, v, w, summary, t0, t1, added, removed)
    ensures OfferStep(capacity, v.HeightSet(), summary.height, w.HeightSet())
  {
    if capacity > 0 {
      if |v.es| < capacity {
        HeightsOfInsertion(v.es, w.es, Entry(summary, 1, t0));
      } else {
        var root := v.es[0];
        ComparatorsAreStrictWeakOrders();
        forall h <- v.HeightSet() ensures root.summary.height <= h {
          var k := IndexOf(Heights(v.es), h);
          RootIsMinimum(LessByHeight, v.es, k);
        }
        assert root in multiset(v.es) && Heights(v.es)[0] == root.summary.height;
        assert IsLeast(root.summary.height, v.HeightSet());
        if added {
          HeightsOfExchange(v.es, w.es, root, Entry(summary, 1, t1));
        }
        assert w.HeightSet() == Replaced(v.HeightSet(), root.summary.height, summary.height);
      }
    }
  }

  /** One call of Insert, as the method promises it, with its two clock readings. */
  ghost predicate InsertCall(capacity: nat, less: Comparator, v: View, w: View, s: BlockDataBasic, now: (int, int)) {
    && (Ordered(less, v.es) ==> Ordered(less, w.es))
    && exists added, removed :: Inserted(capacity, less, v, w, s, now.0, now.1, added, removed)
  }

  lemma InsertCallOffers(capacity: nat, v: View, w: View, s: BlockDataBasic, now: (int, int))
    requires Ordered(LessByHeight, v.es) && |v.es| <= capacity && InsertCall(capacity, LessByHeight, v, w, s, now)
    ensures Ordered(LessByHeight, w.es) && |w.es| <= capacity
    ensures OfferStep(capacity, v.HeightSet(), s.height, w.HeightSet())
  {
    var added, removed :| Inserted(capacity, LessByHeight, v, w, s, now.0, now.1, added, removed);
    InsertOffers(capacity, v, w, s, now.0, now.1, added, removed);
  }

  /** Calls of Insert on a new queue, and what it held before each and at the end. */
  ghost predicate InsertRun(capacity: nat, less: Comparator, offers: seq<BlockDataBasic>, clock: seq<(int, int)>, vs: seq<View>) {
    && |vs| == |offers| + 1 && |clock| == |offers| && vs[0] == CREATED
    && forall k :: 0 <= k < |offers| ==> InsertCall(capacity, less, vs[k], vs[k + 1], offers[k], clock[k])
  }

  lemma {:induction false} InsertRunStaysOrdered(
    capacity: nat, less: Comparator, offers: seq<BlockDataBasic>, clock: seq<(int, int)>, vs: seq<View>, n: nat)
    requires InsertRun(capacity, less, offers, clock, vs) && n <= |offers|
    ensures Ordered(less, vs[n].es) && |vs[n].es| <= capacity
    decreases n
  {
    if n > 0 {
      InsertRunStaysOrdered(capacity, less, offers, clock, vs, n - 1);
      assert InsertCall(capacity, less, vs[n - 1], vs[n], offers[n - 1], clock[n - 1]);
    }
  }

  /** By height, after any sequence of Insert calls on a new queue, the heights in the queue are the
      `capacity` greatest ever offered, or all of them if they were fewer. */
  lemma InsertRunHoldsTop(capacity: nat, offers: seq<BlockDataBasic>, clock: seq<(int, int)>, vs: seq<View>)
    requires InsertRun(capacity, LessByHeight, offers, clock, vs)
    ensures IsTop(capacity, multiset(SummaryHeights(offers)), vs[|offers|].HeightSet())
  {
    var n := |offers|;
    var tops := HeightSets(vs);
    forall k | 0 <= k < n ensures OfferStep(capacity, tops[k], SummaryHeights(offers)[k], tops[k + 1]) {
      InsertRunStaysOrdered(capacity, LessByHeight, offers, clock, vs, k);
      InsertCallOffers(capacity, vs[k], vs[k + 1], offers[k], clock[k]);
    }
    RunHoldsTop(capacity, SummaryHeights(offers), tops);
  }

  ghost function HeightSets(vs: seq<View>): (tops: seq<multiset<int>>)
    ensures |tops| == |vs| && forall k :: 0 <= k < |vs| ==> tops[k] == vs[k].HeightSet()
  {
    seq(|vs|, k requires 0 <= k < |vs| => vs[k].HeightSet())
  }

  function SummaryHeights(ss: seq<BlockDataBasic>): (hs: seq<int>)
    ensures |hs| == |ss| && forall i :: 0 <= i < |ss| ==> hs[i] == ss[i].height
  {
    seq(|ss|, i requires 0 <= i < |ss| => ss[i].height)
  }

  // ---------------------------------------------------------------------------------------------
  // The height bracket

  ghost predicate Enclosed(v: View) {
    v.range.Encloses(v.HeightSet())
  }

  lemma ResetIsExact(w: View, es: seq<Entry>)
    requires Resets(w, es)
    ensures w.range.Exact(w.HeightSet())
  {
    HeightsOfPermutation(w.es, es);
    WidenAllIs(EMPTY, Heights(es));
    if es != [] {
      assert Heights(es)[0] in multiset(Heights(es));
      var r := w.range;
      assert r.Holds(Heights(es)[0]);
      assert r.min in Heights(es) && r.max in Heights(es);
    }
  }

  lemma StepEncloses(v: View, w: View)
    requires Enclosed(v) && Step(v, w)
    ensures Enclosed(w)
  {
    if e :| Grows(v, w, e) {
      HeightsOfInsertion(v.es, w.es, e);
    } else if e, f :| Replaces(v, w, e, f) {
      HeightsOfExchange(v.es, w.es, e, f);
      ReplacedEncloses(v.range, Heights(w.es), f.summary.height, e.summary.height, v.HeightSet());
    } else if e :| Drops(v, w, e) {
      HeightsOfRemoval(v.es, w.es, e);
      RemovingBracket(v.range, Heights(w.es), e.summary.height, v.HeightSet());
    } else if Reorders(v, w) {
      HeightsOfPermutation(v.es, w.es);
    } else if es :| Resets(w, es) {
      ResetIsExact(w, es);
    }
  }

  /** After any run of operations the bracket encloses every queued height. */
  lemma {:induction false} RunEncloses(vs: seq<View>, i: nat)
    requires i < |vs| && Enclosed(vs[0])
    requires forall k :: 0 <= k < |vs| - 1 ==> Step(vs[k], vs[k + 1])
    ensures Enclosed(vs[i])
    decreases i
  {
    if i > 0 {
      RunEncloses(vs, i - 1);
      StepEncloses(vs[i - 1], vs[i]);
    }
  }

  ghost predicate GrowsBySome(v: View, w: View) {
    exists e :: Grows(v, w, e)
  }

  lemma GrowthIsExact(v: View, w: View)
    requires GrowsBySome(v, w) && v.range.Exact(v.HeightSet())
    ensures w.range.Exact(w.HeightSet())
  {
    var e :| Grows(v, w, e);
    HeightsOfInsertion(v.es, w.es, e);
    GrowingStaysExact(v.range, v.HeightSet(), e.summary.height);
  }

  /** After creation or a reset, as long as the queue only grows, the ends of the bracket are heights of
      the queue. */
  lemma {:induction false} GrowingRunIsExact(vs: seq<View>, i: nat)
    requires i < |vs| && (vs[0] == CREATED || exists es :: Resets(vs[0], es))
    requires forall k :: 0 <= k < |vs| - 1 ==> GrowsBySome(vs[k], vs[k + 1])
    ensures vs[i].range.Exact(vs[i].HeightSet())
    decreases i
  {
    if i > 0 {
      GrowingRunIsExact(vs, i - 1);
      GrowthIsExact(vs[i - 1], vs[i]);
    } else if es :| Resets(vs[0], es) {
      ResetIsExact(vs[0], es);
    }
  }

  /** A replacement keeps an exact bracket exact if and only if the height that left still lies within
      the heights of the queue. */
  lemma ReplacingExact(v: View, w: View, e: Entry, f: Entry)
    requires v.range.Exact(v.HeightSet()) && Replaces(v, w, e, f)
    ensures w.range.Exact(w.HeightSet()) <==>
      exists lo, hi :: lo in w.HeightSet() && hi in w.HeightSet() && lo <= e.summary.height <= hi
  {
    HeightsOfExchange(v.es, w.es, e, f);
    ReplacedEncloses(v.range, Heights(w.es), f.summary.height, e.summary.height, v.HeightSet());
    ReplacedExact(v.range, f.summary.height, e.summary.height, v.HeightSet(), w.HeightSet());
  }
}
