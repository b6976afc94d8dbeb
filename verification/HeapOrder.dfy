/** Heap order over the entries of a queue, and what one swap of container/heap does to it. */
module HeapOrder {
  import opened CachedBlocks

  /** (j - 1) / 2 in Go, where division truncates toward zero. */
  function Parent(k: nat): nat {
    if k == 0 then 0 else (k - 1) / 2
  }

  function Swapped<T>(s: seq<T>, i: nat, j: nat): (r: seq<T>)
    requires i < |s| && j < |s|
    ensures |r| == |s| && r[i] == s[j] && r[j] == s[i]
    ensures forall k :: 0 <= k < |s| && k != i && k != j ==> r[k] == s[k]
    ensures multiset(r) == multiset(s)
  {
    s[i := s[j]][j := s[i]]
  }

  /** Position k of the heap is not less than its parent. */
  ghost predicate Edge(less: Comparator, es: seq<Entry>, k: nat)
    requires k < |es|
  {
    !less(es[k], es[Parent(k)])
  }

  /** Heap order of the first n positions, for the edges below positions `lo` and beyond. */
  ghost predicate OrderedFrom(less: Comparator, es: seq<Entry>, lo: nat, n: nat)
    requires n <= |es|
  {
    forall k :: 0 < k < n && lo <= Parent(k) ==> Edge(less, es, k)
  }

  ghost predicate Ordered(less: Comparator, es: seq<Entry>) {
    OrderedFrom(less, es, 0, |es|)
  }

  /** Children of i do not precede the parent of i. */
  ghost predicate Bridged(less: Comparator, es: seq<Entry>, i: nat, n: nat)
    requires i < n <= |es|
  {
    forall k :: 0 < k < n && Parent(k) == i ==> !less(es[k], es[Parent(i)])
  }

  /** Order around a position i that is sinking: everything is in place except the edges below i and,
      before the first swap, the edge above it. */
  ghost predicate Sinking(less: Comparator, es: seq<Entry>, lo: nat, i: nat, n: nat, moved: bool)
    requires i < n <= |es|
  {
    && (forall k :: 0 < k < n && lo <= Parent(k) && Parent(k) != i && (moved || k != i) ==> Edge(less, es, k))
    && (i > 0 && lo <= Parent(i) ==> Bridged(less, es, i, n))
  }

  /** Order around a position j that is rising: only the edge above j may be wrong. */
  ghost predicate Rising(less: Comparator, es: seq<Entry>, j: nat, n: nat)
    requires j < n <= |es|
  {
    && (forall k :: 0 < k < n && k != j ==> Edge(less, es, k))
    && (j > 0 ==> Bridged(less, es, j, n))
  }

  lemma SinkStep(less: Comparator, es: seq<Entry>, lo: nat, i: nat, j: nat, n: nat, moved: bool)
    requires StrictWeakOrder(less)
    requires lo <= i < j < n <= |es| && Parent(j) == i
    requires Sinking(less, es, lo, i, n, moved)
    requires less(es[j], es[i])
    requires forall k :: 0 < k < n && Parent(k) == i ==> !less(es[k], es[j])
    ensures Sinking(less, Swapped(es, i, j), lo, j, n, true)
  {
    var fs := Swapped(es, i, j);
    forall k | 0 < k < n && lo <= Parent(k) && Parent(k) != j ensures Edge(less, fs, k) {
      if k == j {
      } else if Parent(k) == i {
        assert fs[k] == es[k];
      } else if k == i {
        assert !less(es[j], es[Parent(i)]);
      } else {
        assert Edge(less, es, k);
      }
    }
    forall k | 0 < k < n && Parent(k) == j ensures !less(fs[k], fs[Parent(j)]) {
      assert Edge(less, es, k);
    }
  }

  lemma SinkDone(less: Comparator, es: seq<Entry>, lo: nat, i: nat, n: nat, moved: bool)
    requires lo <= i < n <= |es| && Sinking(less, es, lo, i, n, moved)
    requires forall k :: 0 < k < n && Parent(k) == i ==> !less(es[k], es[i])
    ensures forall k :: 0 < k < n && lo <= Parent(k) && (moved || k != i) ==> Edge(less, es, k)
  {
  }

  lemma RiseStep(less: Comparator, es: seq<Entry>, j: nat, n: nat)
    requires StrictWeakOrder(less)
    requires 0 < j < n <= |es| && Rising(less, es, j, n)
    requires less(es[j], es[Parent(j)])
    ensures Rising(less, Swapped(es, Parent(j), j), Parent(j), n)
  {
    var i := Parent(j);
    var fs := Swapped(es, i, j);
    forall k | 0 < k < n && k != i ensures Edge(less, fs, k) {
      if k == j {
      } else if Parent(k) == i {
        assert Edge(less, es, k);
        assert Chain(less, es[k], es[i], es[j]);
      } else if Parent(k) == j {
        assert !less(es[k], es[i]);
      } else {
        assert Edge(less, es, k);
      }
    }
    if i > 0 {
      assert Edge(less, es, i);
      forall k | 0 < k < n && Parent(k) == i ensures !less(fs[k], fs[Parent(i)]) {
        if k != j {
          assert Edge(less, es, k);
          assert Chain(less, es[k], es[i], es[Parent(i)]);
        }
      }
    }
  }

  // ---------------------------------------------------------------------------------------------
  // The same, for whatever comparator the queue has. Nothing is claimed unless the comparator is an
  // order and the entries were in order before the operation at hand (`was`), which they are not after
  // a change of comparator.

  ghost predicate Sinks(was: bool, less: Comparator, es: seq<Entry>, lo: nat, i: nat, n: nat, moved: bool)
    requires i < n <= |es|
  {
    was && StrictWeakOrder(less) ==> Sinking(less, es, lo, i, n, moved)
  }

  ghost predicate Rises(was: bool, less: Comparator, es: seq<Entry>, j: nat, n: nat)
    requires j < n <= |es|
  {
    was && StrictWeakOrder(less) ==> Rising(less, es, j, n)
  }

  /** Nothing below position `lo` is out of order, except that the edge above i was not looked at
      unless the entry there has sunk. */
  ghost predicate Settled(was: bool, less: Comparator, es: seq<Entry>, lo: nat, i: nat, n: nat, moved: bool)
    requires n <= |es|
  {
    was && StrictWeakOrder(less) ==>
      forall k :: 0 < k < n && lo <= Parent(k) && (moved || k != i) ==> Edge(less, es, k)
  }

  ghost predicate IsHeap(was: bool, less: Comparator, es: seq<Entry>, lo: nat, n: nat)
    requires n <= |es|
  {
    was && StrictWeakOrder(less) ==> OrderedFrom(less, es, lo, n)
  }

  /** The child that `down` compares with the entry at i. */
  function SmallerChild(less: Comparator, es: seq<Entry>, i: nat, n: nat): (j: nat)
    requires 2 * i + 1 < n <= |es|
    ensures i < j < n && Parent(j) == i
  {
    if 2 * i + 2 < n && less(es[2 * i + 2], es[2 * i + 1]) then 2 * i + 2 else 2 * i + 1
  }

  lemma SinkRound(was: bool, less: Comparator, es: seq<Entry>, lo: nat, i: nat, n: nat, moved: bool)
    requires lo <= i < n <= |es| && Sinks(was, less, es, lo, i, n, moved)
    ensures 2 * i + 1 >= n ==> Settled(was, less, es, lo, i, n, moved)
    ensures 2 * i + 1 < n ==>
      var j := SmallerChild(less, es, i, n);
      if less(es[j], es[i]) then Sinks(was, less, Swapped(es, i, j), lo, j, n, true)
      else Settled(was, less, es, lo, i, n, moved)
  {
    if was && StrictWeakOrder(less) {
      if 2 * i + 1 < n {
        var j := SmallerChild(less, es, i, n);
        forall k | 0 < k < n && Parent(k) == i
          ensures !less(es[k], es[j]) && (!less(es[j], es[i]) ==> !less(es[k], es[i]))
        {
          assert k == 2 * i + 1 || k == 2 * i + 2;
          assert Chain(less, es[k], es[j], es[i]);
        }
        if less(es[j], es[i]) {
          SinkStep(less, es, lo, i, j, n, moved);
        } else {
          SinkDone(less, es, lo, i, n, moved);
        }
      } else {
        SinkDone(less, es, lo, i, n, moved);
      }
    }
  }

  lemma RiseRound(was: bool, less: Comparator, es: seq<Entry>, j: nat, n: nat)
    requires j < n <= |es| && Rises(was, less, es, j, n)
    ensures if j > 0 && less(es[j], es[Parent(j)])
            then Rises(was, less, Swapped(es, Parent(j), j), Parent(j), n)
            else IsHeap(was, less, es, 0, n)
  {
    if was && StrictWeakOrder(less) && j > 0 && less(es[j], es[Parent(j)]) {
      RiseStep(less, es, j, n);
    }
  }

  /** Replacing one entry of a heap leaves an order that can be repaired by sinking it or, when it does
      not sink, by raising it. */
  lemma ReplacedSinks(was: bool, less: Comparator, es: seq<Entry>, fs: seq<Entry>, i: nat, n: nat)
    requires i < n <= |es| && n <= |fs| && IsHeap(was, less, es, 0, n)
    requires forall k :: 0 <= k < n && k != i ==> fs[k] == es[k]
    ensures Sinks(was, less, fs, 0, i, n, false)
    ensures Settled(was, less, fs, 0, i, n, false) ==> Rises(was, less, fs, i, n)
  {
    if was && StrictWeakOrder(less) {
      forall k | 0 < k < n && Parent(k) != i && k != i ensures Edge(less, fs, k) {
        assert Edge(less, es, k);
      }
      if i > 0 {
        forall k | 0 < k < n && Parent(k) == i ensures !less(fs[k], fs[Parent(i)]) {
          assert Edge(less, es, k) && Edge(less, es, i);
          assert Chain(less, es[k], es[i], es[Parent(i)]);
        }
      }
    }
  }

  lemma AppendedRises(was: bool, less: Comparator, es: seq<Entry>, fs: seq<Entry>)
    requires |fs| == |es| + 1 && fs[..|es|] == es
    requires was ==> IsHeap(true, less, es, 0, |es|)
    ensures Rises(was, less, fs, |es|, |fs|)
  {
    if was && StrictWeakOrder(less) {
      forall k | 0 < k < |fs| && k != |es| ensures Edge(less, fs, k) {
        assert Edge(less, es, k);
      }
    }
  }

  lemma SettledSubtree(was: bool, less: Comparator, es: seq<Entry>, i: nat, n: nat, moved: bool)
    requires i < n <= |es|
    ensures IsHeap(was, less, es, i + 1, n) ==> Sinks(was, less, es, i, i, n, false)
    ensures Settled(was, less, es, i, i, n, moved) ==> IsHeap(was, less, es, i, n)
    ensures Settled(was, less, es, 0, i, n, true) ==> IsHeap(was, less, es, 0, n)
  {
  }

  lemma PrefixIsHeap(was: bool, less: Comparator, es: seq<Entry>, lo: nat, n: nat)
    requires n <= |es|
    ensures IsHeap(was, less, es, lo, n) <==> IsHeap(was, less, es[..n], lo, n)
    ensures 2 * lo + 1 >= n ==> IsHeap(was, less, es, lo, n)
    ensures IsHeap(false, less, es, lo, n)
    ensures IsHeap(was, less, es, lo, |es|) ==> IsHeap(was, less, es, lo, n)
  {
    var fs := es[..n];
    assert forall k :: 0 < k < n ==> (Edge(less, es, k) <==> Edge(less, fs, k));
  }

  /** The root of a heap is a minimum. */
  lemma {:induction false} RootIsMinimum(less: Comparator, es: seq<Entry>, k: nat)
    requires StrictWeakOrder(less) && Ordered(less, es) && k < |es|
    ensures !less(es[k], es[0])
    decreases k
  {
    if k > 0 {
      RootIsMinimum(less, es, Parent(k));
      assert Edge(less, es, k);
      assert Chain(less, es[k], es[Parent(k)], es[0]);
    }
  }
}
