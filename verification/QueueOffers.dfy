/** The queue as a client uses it: from a new queue through any number of Insert calls. */
module QueueOffers {
  import opened Options
  import opened CachedBlocks
  import opened HeapOrder
  import opened QueueRuns
  import opened TopHeights
  import opened BlockQueue
  import opened QueueEviction

  /** A new queue with a comparator that orders blocks, to which summaries are offered one after the other. The
      clock gives the two readings of each Insert. By height it ends up with the greatest heights offered, by
      access time with the last offers, by access count with the first. */
  method OfferAll(capacity: nat, less: Comparator, offers: seq<BlockDataBasic>, clock: seq<(int, int)>)
    returns (queue: BlockPriorityQueue, ghost vs: seq<View>)
    requires |clock| == |offers| && StrictWeakOrder(less)
    ensures fresh(queue) && queue.Valid() && queue.Indexed() && queue.HeapOrdered() && |queue.bh| <= capacity
    ensures InsertRun(capacity, less, offers, clock, vs) && vs[|offers|] == queue.Contents()
    ensures less == LessByHeight || less == LessByAccessCountThenHeight ==>
      IsTop(capacity, multiset(SummaryHeights(offers)), queue.Contents().HeightSet())
    ensures less == LessByAccessTime && Ticking(clock) ==>
      HoldsLatest(capacity, offers, clock, |offers|, queue.Contents().es)
    ensures less == LessByAccessCount ==> HoldsFirst(capacity, offers, clock, |offers|, queue.Contents().es)
  {
    queue, vs := OfferOneByOne(capacity, less, offers, clock);
    hide InsertRun, IsTop, Ordered, HoldsLatest, HoldsFirst, Ticking, SummaryHeights, IsHeap;
    if less == LessByHeight {
      InsertRunHoldsTop(capacity, offers, clock, vs);
    }
    if less == LessByAccessCountThenHeight {
      HighestStay(capacity, offers, clock, vs);
    }
    if less == LessByAccessTime && Ticking(clock) {
      LatestStay(capacity, offers, clock, vs, |offers|);
    }
    if less == LessByAccessCount {
      FirstStay(capacity, offers, clock, vs, |offers|);
    }
  }

  method OfferOneByOne(capacity: nat, less: Comparator, offers: seq<BlockDataBasic>, clock: seq<(int, int)>)
    returns (queue: BlockPriorityQueue, ghost vs: seq<View>)
    requires |clock| == |offers| && StrictWeakOrder(less)
    ensures fresh(queue) && queue.Valid() && queue.Indexed() && queue.HeapOrdered() && |queue.bh| <= capacity
    ensures InsertRun(capacity, less, offers, clock, vs) && |vs| == |offers| + 1 && vs[|offers|] == queue.Contents()
  {
    hide Inserted, IsHeap, Ordered, InsertRun, Reorders, StrictWeakOrder;
    queue := new BlockPriorityQueue(capacity);
    queue.SetLessFn(less);
    queue.Reheap();
    vs := [CREATED];
    assert queue.Contents() == CREATED;
    InsertRunStarts(capacity, less);
    for i := 0 to |offers|
      invariant fresh(queue) && fresh(queue.Repr) && queue.Valid() && queue.Indexed() && queue.HeapOrdered()
      invariant queue.lessFn == less && queue.capacity == capacity && |queue.bh| <= capacity
      invariant |vs| == i + 1 && InsertRun(capacity, less, offers[..i], clock[..i], vs) && vs[i] == queue.Contents()
    {
      ghost var before := queue.Contents();
      var added, removed := queue.Insert(offers[i], clock[i].0, clock[i].1);
      HeapIsOrdered(less, before, queue.Contents());
      InsertRunGrows(capacity, less, offers[..i], clock[..i], vs, offers[i], clock[i], queue.Contents());
      assert offers[..i + 1] == offers[..i] + [offers[i]] && clock[..i + 1] == clock[..i] + [clock[i]];
      vs := vs + [queue.Contents()];
    }
    assert offers[..|offers|] == offers && clock[..|clock|] == clock;
  }

  /** For a comparator that orders blocks, heap order is not conditional. */
  lemma HeapIsOrdered(less: Comparator, v: View, w: View)
    requires StrictWeakOrder(less)
    requires IsHeap(true, less, v.es, 0, |v.es|) ==> IsHeap(true, less, w.es, 0, |w.es|)
    ensures Ordered(less, v.es) ==> Ordered(less, w.es)
  {
    hide StrictWeakOrder;
  }

  lemma InsertRunStarts(capacity: nat, less: Comparator)
    ensures InsertRun(capacity, less, [], [], [CREATED])
  {
  }

  lemma InsertRunGrows(capacity: nat, less: Comparator, offers: seq<BlockDataBasic>, clock: seq<(int, int)>,
                       vs: seq<View>, s: BlockDataBasic, now: (int, int), w: View)
    requires |vs| == |offers| + 1 && InsertRun(capacity, less, offers, clock, vs)
    requires InsertCall(capacity, less, vs[|offers|], w, s, now)
    ensures InsertRun(capacity, less, offers + [s], clock + [now], vs + [w])
  {
    hide InsertCall;
  }
}
