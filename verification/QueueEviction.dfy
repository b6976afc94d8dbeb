/** What each comparator makes of a queue that only takes offers: which of the blocks offered it ends up with. */
module QueueEviction {
  import opened Options
  import opened CachedBlocks
  import opened SeqMultisets
  import opened HeapOrder
  import opened HeightBracket
  import opened TopHeights
  import opened QueueRuns

  /** The entry of offer k: the first `capacity` offers are pushed, the others take the place of a root, and the
      clock is read once more for that. */
  function EntryOf(capacity: nat, offers: seq<BlockDataBasic>, clock: seq<(int, int)>, k: nat): Entry
    requires k < |offers| == |clock|
  {
    Entry(offers[k], 1, if k < capacity then clock[k].0 else clock[k].1)
  }

  function EntriesOf(capacity: nat, offers: seq<BlockDataBasic>, clock: seq<(int, int)>, from: nat, to: nat): (es: seq<Entry>)
    requires from <= to <= |offers| == |clock|
    ensures |es| == to - from && forall i :: 0 <= i < |es| ==> es[i] == EntryOf(capacity, offers, clock, from + i)
  {
    seq(to - from, i requires 0 <= i < to - from => EntryOf(capacity, offers, clock, from + i))
  }

  /** An offer that is pushed is one entry more. */
  lemma EntriesGrow(capacity: nat, offers: seq<BlockDataBasic>, clock: seq<(int, int)>, from: nat, to: nat)
    requires from <= to < |offers| == |clock|
    ensures multiset(EntriesOf(capacity, offers, clock, from, to + 1)) ==
      multiset(EntriesOf(capacity, offers, clock, from, to)) + multiset{EntryOf(capacity, offers, clock, to)}
  {
    assert EntriesOf(capacity, offers, clock, from, to + 1) ==
      EntriesOf(capacity, offers, clock, from, to) + [EntryOf(capacity, offers, clock, to)];
  }

  lemma EntriesMove(capacity: nat, offers: seq<BlockDataBasic>, clock: seq<(int, int)>, from: nat, to: nat)
    requires from < to < |offers| == |clock|
    ensures multiset(EntriesOf(capacity, offers, clock, from + 1, to + 1)) ==
      multiset(EntriesOf(capacity, offers, clock, from, to)) - multiset{EntryOf(capacity, offers, clock, from)} +
        multiset{EntryOf(capacity, offers, clock, to)}
  {
    var es := EntriesOf(capacity, offers, clock, from, to);
    assert es == [EntryOf(capacity, offers, clock, from)] + EntriesOf(capacity, offers, clock, from + 1, to);
    EntriesGrow(capacity, offers, clock, from + 1, to);
  }

  // ---------------------------------------------------------------------------------------------
  // By access time

  /** The clock moves on from one offer to the next. */
  ghost predicate Ticking(clock: seq<(int, int)>) {
    && (forall k :: 0 <= k < |clock| ==> clock[k].0 <= clock[k].1)
    && (forall k, l :: 0 <= k < l < |clock| ==> clock[k].1 < clock[l].0)
  }

  /** The oldest entry is the only minimum. */
  lemma OldestIsMinimum(capacity: nat, offers: seq<BlockDataBasic>, clock: seq<(int, int)>, from: nat, to: nat,
                        es: seq<Entry>)
    requires from < to <= |offers| == |clock| && Ticking(clock)
    requires multiset(es) == multiset(EntriesOf(capacity, offers, clock, from, to)) && es != []
    requires Ordered(LessByAccessTime, es)
    ensures es[0] == EntryOf(capacity, offers, clock, from)
  {
    ComparatorsAreStrictWeakOrders();
    var all := EntriesOf(capacity, offers, clock, from, to);
    assert es[0] in multiset(es) && all[0] in multiset(all);
    var j := IndexOf(all, es[0]);
    var k := IndexOf(es, all[0]);
    RootIsMinimum(LessByAccessTime, es, k);
    assert all[0].accessTime >= all[j].accessTime;
  }

  /** The queue holds the entries of the last offers. */
  ghost predicate HoldsLatest(capacity: nat, offers: seq<BlockDataBasic>, clock: seq<(int, int)>, n: nat, es: seq<Entry>)
    requires n <= |offers| == |clock|
  {
    multiset(es) == multiset(EntriesOf(capacity, offers, clock, if n <= capacity then 0 else n - capacity, n))
  }

  /** It holds the entries of the first. */
  ghost predicate HoldsFirst(capacity: nat, offers: seq<BlockDataBasic>, clock: seq<(int, int)>, n: nat, es: seq<Entry>)
    requires n <= |offers| == |clock|
  {
    multiset(es) == multiset(EntriesOf(capacity, offers, clock, 0, if n <= capacity then n else capacity))
  }

  lemma SameSize<T>(s: seq<T>, t: seq<T>)
    requires multiset(s) == multiset(t)
    ensures |s| == |t|
  {
    assert |multiset(s)| == |s| && |multiset(t)| == |t|;
  }

  /** While there is room every offer is taken in, whatever the comparator. */
  lemma RoomStep(capacity: nat, less: Comparator, offers: seq<BlockDataBasic>, clock: seq<(int, int)>, n: nat, v: View, w: View)
    requires n < |offers| == |clock| && n < capacity && HoldsFirst(capacity, offers, clock, n, v.es)
    requires InsertCall(capacity, less, v, w, offers[n], clock[n])
    ensures HoldsFirst(capacity, offers, clock, n + 1, w.es)
  {
    SameSize(v.es, EntriesOf(capacity, offers, clock, 0, n));
    EntriesGrow(capacity, offers, clock, 0, n);
    hide EntriesOf, Ordered, View.HeightSet;
  }

  lemma FullStep(capacity: nat, offers: seq<BlockDataBasic>, clock: seq<(int, int)>, n: nat, v: View, w: View)
    requires capacity <= n < |offers| == |clock| && Ticking(clock)
    requires HoldsLatest(capacity, offers, clock, n, v.es) && Ordered(LessByAccessTime, v.es)
    requires InsertCall(capacity, LessByAccessTime, v, w, offers[n], clock[n])
    ensures HoldsLatest(capacity, offers, clock, n + 1, w.es)
  {
    SameSize(v.es, EntriesOf(capacity, offers, clock, n - capacity, n));
    if capacity == 0 {
      EmptyStays(LessByAccessTime, v, w, offers[n], clock[n]);
      assert EntriesOf(capacity, offers, clock, n + 1, n + 1) == [];
    } else {
      OldestIsMinimum(capacity, offers, clock, n - capacity, n, v.es);
      assert v.es[0].accessTime < clock[n].0;
      hide EntriesOf, Ordered, Ticking, EntryOf, HoldsLatest, InsertCall;
      TakesPlace(capacity, v, w, offers[n], clock[n]);
      OldestMadeRoom(capacity, offers, clock, n, v.es, w.es);
    }
  }

  lemma OldestMadeRoom(capacity: nat, offers: seq<BlockDataBasic>, clock: seq<(int, int)>, n: nat, es: seq<Entry>, fs: seq<Entry>)
    requires 0 < capacity <= n < |offers| == |clock| && HoldsLatest(capacity, offers, clock, n, es)
    requires multiset(fs) == multiset(es) - multiset{EntryOf(capacity, offers, clock, n - capacity)} +
      multiset{Entry(offers[n], 1, clock[n].1)}
    ensures HoldsLatest(capacity, offers, clock, n + 1, fs)
  {
    hide EntriesOf;
    EntriesMove(capacity, offers, clock, n - capacity, n);
    LastEntry(capacity, offers, clock, n);
  }

  lemma LastEntry(capacity: nat, offers: seq<BlockDataBasic>, clock: seq<(int, int)>, n: nat)
    requires capacity <= n < |offers| == |clock|
    ensures EntryOf(capacity, offers, clock, n) == Entry(offers[n], 1, clock[n].1)
  {
  }

  lemma EmptyStays(less: Comparator, v: View, w: View, s: BlockDataBasic, now: (int, int))
    requires InsertCall(0, less, v, w, s, now)
    ensures w == v
  {
  }

  /** A root accessed before now gives way. */
  lemma TakesPlace(capacity: nat, v: View, w: View, s: BlockDataBasic, now: (int, int))
    requires 0 < capacity <= |v.es| && v.es[0].accessTime < now.0
    requires InsertCall(capacity, LessByAccessTime, v, w, s, now)
    ensures multiset(w.es) == multiset(v.es) - multiset{v.es[0]} + multiset{Entry(s, 1, now.1)}
  {
    hide Ordered;
    var added, removed :| Inserted(capacity, LessByAccessTime, v, w, s, now.0, now.1, added, removed);
  }

  lemma CallOfRun(capacity: nat, less: Comparator, offers: seq<BlockDataBasic>, clock: seq<(int, int)>, vs: seq<View>, k: nat)
    requires InsertRun(capacity, less, offers, clock, vs) && k < |offers|
    ensures |vs| == |offers| + 1 && |clock| == |offers|
    ensures InsertCall(capacity, less, vs[k], vs[k + 1], offers[k], clock[k]) && Ordered(less, vs[k].es)
  {
    InsertRunStaysOrdered(capacity, less, offers, clock, vs, k);
  }

  lemma RunStarts(capacity: nat, less: Comparator, offers: seq<BlockDataBasic>, clock: seq<(int, int)>, vs: seq<View>)
    requires InsertRun(capacity, less, offers, clock, vs)
    ensures |vs| == |offers| + 1 && |clock| == |offers|
    ensures HoldsFirst(capacity, offers, clock, 0, vs[0].es) && HoldsLatest(capacity, offers, clock, 0, vs[0].es)
  {
  }

  lemma FirstAreLatest(capacity: nat, offers: seq<BlockDataBasic>, clock: seq<(int, int)>, n: nat, es: seq<Entry>)
    requires n <= |offers| == |clock| && n <= capacity
    ensures HoldsFirst(capacity, offers, clock, n, es) <==> HoldsLatest(capacity, offers, clock, n, es)
  {
  }

  /** By access time, the queue holds the blocks offered last, each with one access at its own time: whatever
      comes in pushes out the oldest. */
  lemma {:induction false} LatestStay(
    capacity: nat, offers: seq<BlockDataBasic>, clock: seq<(int, int)>, vs: seq<View>, n: nat)
    requires InsertRun(capacity, LessByAccessTime, offers, clock, vs) && n <= |offers| && Ticking(clock)
    ensures |vs| == |offers| + 1 && |clock| == |offers| && HoldsLatest(capacity, offers, clock, n, vs[n].es)
    decreases n
  {
    hide InsertRun, InsertCall, Ordered, HoldsFirst, HoldsLatest, Ticking;
    RunStarts(capacity, LessByAccessTime, offers, clock, vs);
    if n > 0 {
      LatestStay(capacity, offers, clock, vs, n - 1);
      CallOfRun(capacity, LessByAccessTime, offers, clock, vs, n - 1);
      if n <= capacity {
        FirstAreLatest(capacity, offers, clock, n - 1, vs[n - 1].es);
        RoomStep(capacity, LessByAccessTime, offers, clock, n - 1, vs[n - 1], vs[n]);
        FirstAreLatest(capacity, offers, clock, n, vs[n].es);
      } else {
        FullStep(capacity, offers, clock, n - 1, vs[n - 1], vs[n]);
      }
    }
  }

  // ---------------------------------------------------------------------------------------------
  // By access count

  lemma NoneGivesWay(capacity: nat, offers: seq<BlockDataBasic>, clock: seq<(int, int)>, n: nat, v: View, w: View)
    requires capacity <= n < |offers| == |clock| && HoldsFirst(capacity, offers, clock, n, v.es)
    requires InsertCall(capacity, LessByAccessCount, v, w, offers[n], clock[n])
    ensures w == v && HoldsFirst(capacity, offers, clock, n + 1, w.es)
  {
    var all := EntriesOf(capacity, offers, clock, 0, capacity);
    SameSize(v.es, all);
    if capacity > 0 {
      assert v.es[0] in multiset(v.es);
      var j := IndexOf(all, v.es[0]);
      assert v.es[0].accesses == 1;
    }
    hide EntriesOf, Ordered;
  }

  /** By access count, the queue holds the blocks offered first: its own entries are never accessed again, so
      that no newcomer precedes any of them. */
  lemma {:induction false} FirstStay(
    capacity: nat, offers: seq<BlockDataBasic>, clock: seq<(int, int)>, vs: seq<View>, n: nat)
    requires InsertRun(capacity, LessByAccessCount, offers, clock, vs) && n <= |offers|
    ensures |vs| == |offers| + 1 && |clock| == |offers| && HoldsFirst(capacity, offers, clock, n, vs[n].es)
    decreases n
  {
    hide InsertRun, InsertCall, Ordered, HoldsFirst;
    RunStarts(capacity, LessByAccessCount, offers, clock, vs);
    if n > 0 {
      FirstStay(capacity, offers, clock, vs, n - 1);
      CallOfRun(capacity, LessByAccessCount, offers, clock, vs, n - 1);
      if n <= capacity {
        RoomStep(capacity, LessByAccessCount, offers, clock, n - 1, vs[n - 1], vs[n]);
      } else {
        NoneGivesWay(capacity, offers, clock, n - 1, vs[n - 1], vs[n]);
      }
    }
  }

  // ---------------------------------------------------------------------------------------------
  // By access count and then height

  ghost predicate AccessedOnce(es: seq<Entry>) {
    forall e <- es :: e.accesses == 1
  }

  lemma OnceSameOrder(es: seq<Entry>)
    requires AccessedOnce(es)
    ensures Ordered(LessByAccessCountThenHeight, es) ==> Ordered(LessByHeight, es)
  {
    assert forall k :: 0 <= k < |es| ==> es[k] in es && es[k].accesses == 1;
    assert forall k :: 0 < k < |es| ==> (Edge(LessByHeight, es, k) <==> Edge(LessByAccessCountThenHeight, es, k));
  }

  lemma StillOnce(es: seq<Entry>, fs: seq<Entry>, e: Entry)
    requires AccessedOnce(es) && e.accesses == 1 && forall x :: x in multiset(fs) ==> x in multiset(es) || x == e
    ensures AccessedOnce(fs)
  {
    forall x <- fs ensures x.accesses == 1 {
      assert x in multiset(fs);
    }
  }

  /** On entries accessed once this is the order by height. */
  lemma OnceIsByHeight(capacity: nat, v: View, w: View, s: BlockDataBasic, now: (int, int))
    requires AccessedOnce(v.es) && Ordered(LessByAccessCountThenHeight, v.es) && |v.es| <= capacity
    requires InsertCall(capacity, LessByAccessCountThenHeight, v, w, s, now)
    ensures AccessedOnce(w.es) && OfferStep(capacity, v.HeightSet(), s.height, w.HeightSet())
  {
    OnceSameOrder(v.es);
    hide Ordered, OfferStep;
    var added, removed :| Inserted(capacity, LessByAccessCountThenHeight, v, w, s, now.0, now.1, added, removed);
    if |v.es| > 0 {
      assert v.es[0] in v.es && v.es[0].accesses == 1;
    }
    assert Inserted(capacity, LessByHeight, v, w, s, now.0, now.1, added, removed);
    InsertOffers(capacity, v, w, s, now.0, now.1, added, removed);
    StillOnce(v.es, w.es, if |v.es| < capacity then Entry(s, 1, now.0) else Entry(s, 1, now.1));
  }

  lemma {:induction false} StayAccessedOnce(
    capacity: nat, offers: seq<BlockDataBasic>, clock: seq<(int, int)>, vs: seq<View>, n: nat)
    requires InsertRun(capacity, LessByAccessCountThenHeight, offers, clock, vs) && n <= |offers|
    ensures AccessedOnce(vs[n].es)
    decreases n
  {
    if n > 0 {
      StayAccessedOnce(capacity, offers, clock, vs, n - 1);
      InsertRunStaysOrdered(capacity, LessByAccessCountThenHeight, offers, clock, vs, n - 1);
      assert InsertCall(capacity, LessByAccessCountThenHeight, vs[n - 1], vs[n], offers[n - 1], clock[n - 1]);
      OnceIsByHeight(capacity, vs[n - 1], vs[n], offers[n - 1], clock[n - 1]);
    }
  }

  /** By access count and then height, too, the queue ends up with the greatest heights offered. */
  lemma HighestStay(capacity: nat, offers: seq<BlockDataBasic>, clock: seq<(int, int)>, vs: seq<View>)
    requires InsertRun(capacity, LessByAccessCountThenHeight, offers, clock, vs)
    ensures IsTop(capacity, multiset(SummaryHeights(offers)), vs[|offers|].HeightSet())
  {
    var n := |offers|;
    var tops := HeightSets(vs);
    forall k | 0 <= k < n ensures OfferStep(capacity, tops[k], SummaryHeights(offers)[k], tops[k + 1]) {
      StayAccessedOnce(capacity, offers, clock, vs, k);
      InsertRunStaysOrdered(capacity, LessByAccessCountThenHeight, offers, clock, vs, k);
      assert InsertCall(capacity, LessByAccessCountThenHeight, vs[k], vs[k + 1], offers[k], clock[k]);
      OnceIsByHeight(capacity, vs[k], vs[k + 1], offers[k], clock[k]);
    }
    RunHoldsTop(capacity, SummaryHeights(offers), tops);
  }
}
