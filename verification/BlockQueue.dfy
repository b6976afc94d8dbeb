/** BlockPriorityQueue of hcdataapi/apicache.go, with container/heap written over its Less, Swap, Push
    and Pop. */
module BlockQueue {
  import opened Options
  import opened CachedBlocks
  import opened SeqMultisets
  import opened HeapOrder
  import opened HeightBracket
  import opened QueueRuns

  class BlockPriorityQueue {
    var bh: seq<CachedBlock>
    var capacity: nat
    var needsReheap: bool
    var minHeight: int
    var maxHeight: int
    var lessFn: Comparator
    /** What the comparator sees of the blocks of the heap, in heap order. */
    ghost var entries: seq<Entry>
    /** The blocks made or taken over by this queue. */
    ghost var Repr: set<CachedBlock>

    ghost predicate Valid()
      reads this, Repr
    {
      && |entries| == |bh|
      && (forall k :: 0 <= k < |bh| ==> bh[k] in Repr)
      && (forall k :: 0 <= k < |bh| ==> bh[k].Snapshot() == entries[k])
    }

    /** Every block knows its position. */
    ghost predicate Indexed()
      reads this`bh, (set b <- bh)`heapIdx
    {
      forall i :: 0 <= i < |bh| ==> bh[i].heapIdx == i
    }

    /** Heap order, provided the comparator is an order. */
    ghost predicate HeapOrdered()
      reads this`entries, this`lessFn
    {
      IsHeap(true, lessFn, entries, 0, |entries|)
    }

    /** The blocks of the queue were moved around, and that is all. */
    twostate predicate Rearranged()
      reads this, bh
    {
      && |bh| == |old(bh)|
      && multiset(bh) == multiset(old(bh))
      && multiset(entries) == multiset(old(entries))
      && (old(Indexed()) ==> Indexed())
    }

    method Swap(i: nat, j: nat)
      requires Valid() && i < |bh| && j < |bh|
      modifies this`bh, this`entries, Repr`heapIdx
      ensures Valid()
      ensures bh == Swapped(old(bh), i, j)
      ensures entries == Swapped(old(entries), i, j)
      ensures Rearranged()
    {
      bh := bh[i := bh[j]][j := bh[i]];
      assert bh == Swapped(old(bh), i, j);
      hide Swapped;
      bh[i].heapIdx := i;
      bh[j].heapIdx := j;
      entries := Swapped(entries, i, j);
    }

    function Less(i: nat, j: nat): (r: bool)
      requires i < |bh| && j < |bh|
      reads this, bh
    {
      lessFn(Entry(bh[i].summary, bh[i].accesses, bh[i].accessTime),
             Entry(bh[j].summary, bh[j].accesses, bh[j].accessTime))
    }

    // -------------------------------------------------------------------------------------------
    // container/heap

    /** One round of the loop in `down`: the block at i changes place with its smaller child, unless that
        child does not precede it. */
    method Sink(ghost was: bool, ghost lo: nat, i: nat, n: nat, ghost moved: bool) returns (j: nat)
      requires Valid() && lo <= i < n <= |bh| && Sinks(was, lessFn, entries, lo, i, n, moved)
      modifies this`bh, this`entries, Repr`heapIdx
      ensures Valid() && Rearranged()
      ensures i <= j < n && if j > i then bh == Swapped(old(bh), i, j) && entries == Swapped(old(entries), i, j)
              else bh == old(bh) && entries == old(entries)
      ensures if j > i then Sinks(was, lessFn, entries, lo, j, n, true)
              else Settled(was, lessFn, entries, lo, i, n, moved)
    {
      ghost var es := entries;
      SinkRound(was, lessFn, es, lo, i, n, moved);
      j := 2 * i + 1;
      if j >= n {
        return i;
      }
      var j2 := j + 1;
      if j2 < n && Less(j2, j) {
        j := j2;
      }
      assert j == SmallerChild(lessFn, es, i, n);
      if !Less(j, i) {
        return i;
      }
      Swap(i, j);
    }

    method Down(ghost was: bool, ghost lo: nat, i0: nat, n: nat) returns (moved: bool)
      requires Valid() && lo <= i0 < n <= |bh| && Sinks(was, lessFn, entries, lo, i0, n, false)
      modifies this`bh, this`entries, Repr`heapIdx
      ensures Valid() && Rearranged()
      ensures forall k :: n <= k < |bh| ==> bh[k] == old(bh[k]) && entries[k] == old(entries[k])
      ensures !moved ==> bh == old(bh) && entries == old(entries)
      ensures Settled(was, lessFn, entries, lo, i0, n, moved)
    {
      var i := i0;
      while true
        invariant Valid() && Rearranged()
        invariant i0 <= i < n
        invariant i == i0 ==> bh == old(bh) && entries == old(entries)
        invariant forall k :: n <= k < |bh| ==> bh[k] == old(bh[k]) && entries[k] == old(entries[k])
        invariant Sinks(was, lessFn, entries, lo, i, n, i > i0)
        decreases n - i
      {
        var j := Sink(was, lo, i, n, i > i0);
        if j == i {
          break;
        }
        i := j;
      }
      moved := i > i0;
    }

    /** One round of the loop in `up`. */
    method Rise(ghost was: bool, j: nat, ghost n: nat) returns (i: nat)
      requires Valid() && j < n <= |bh| && Rises(was, lessFn, entries, j, n)
      modifies this`bh, this`entries, Repr`heapIdx
      ensures Valid() && Rearranged()
      ensures i <= j && if i < j then bh == Swapped(old(bh), i, j) && entries == Swapped(old(entries), i, j)
              else bh == old(bh) && entries == old(entries)
      ensures if i < j then Rises(was, lessFn, entries, i, n) else IsHeap(was, lessFn, entries, 0, n)
    {
      RiseRound(was, lessFn, entries, j, n);
      i := Parent(j);
      if i == j || !Less(j, i) {
        return j;
      }
      Swap(i, j);
    }

    method Up(ghost was: bool, j0: nat, ghost n: nat)
      requires Valid() && j0 < n <= |bh| && Rises(was, lessFn, entries, j0, n)
      modifies this`bh, this`entries, Repr`heapIdx
      ensures Valid() && Rearranged()
      ensures forall k :: n <= k < |bh| ==> bh[k] == old(bh[k]) && entries[k] == old(entries[k])
      ensures IsHeap(was, lessFn, entries, 0, n)
    {
      var j := j0;
      while true
        invariant Valid() && Rearranged()
        invariant 0 <= j <= j0
        invariant forall k :: n <= k < |bh| ==> bh[k] == old(bh[k]) && entries[k] == old(entries[k])
        invariant Rises(was, lessFn, entries, j, n)
        decreases j
      {
        var i := Rise(was, j, n);
        if i == j {
          break;
        }
        j := i;
      }
    }

    /** heap.Init */
    method Init()
      requires Valid()
      modifies this`bh, this`entries, Repr`heapIdx
      ensures Valid() && Rearranged() && HeapOrdered()
    {
      var n := |bh|;
      var i := n / 2;
      PrefixIsHeap(true, lessFn, entries, i, n);
      while i > 0
        invariant Valid() && Rearranged()
        invariant 0 <= i <= n / 2
        invariant IsHeap(true, lessFn, entries, i, n)
      {
        i := i - 1;
        SettledSubtree(true, lessFn, entries, i, n, false);
        var moved := Down(true, i, i, n);
        SettledSubtree(true, lessFn, entries, i, n, moved);
      }
    }

    /** What heap.Fix and heap.Remove do about the entry at i once it was replaced. */
    method Repair(ghost was: bool, i: nat, n: nat, ghost before: seq<Entry>)
      requires Valid() && i < n <= |bh| && n <= |before| && IsHeap(was, lessFn, before, 0, n)
      requires forall k :: 0 <= k < n && k != i ==> entries[k] == before[k]
      modifies this`bh, this`entries, Repr`heapIdx
      ensures Valid() && Rearranged()
      ensures forall k :: n <= k < |bh| ==> bh[k] == old(bh[k]) && entries[k] == old(entries[k])
      ensures IsHeap(was, lessFn, entries, 0, n)
    {
      ReplacedSinks(was, lessFn, before, entries, i, n);
      var moved := Down(was, 0, i, n);
      SettledSubtree(was, lessFn, entries, i, n, moved);
      if !moved {
        ReplacedSinks(was, lessFn, before, entries, i, n);
        Up(was, i, n);
      }
    }

    /** heap.Fix, after the entry at i changed */
    method Fix(i: nat, ghost before: seq<Entry>)
      requires Valid() && i < |bh| == |before|
      requires forall k :: 0 <= k < |bh| && k != i ==> entries[k] == before[k]
      modifies this`bh, this`entries, Repr`heapIdx
      ensures Valid() && Rearranged()
      ensures IsHeap(true, lessFn, before, 0, |before|) ==> HeapOrdered()
    {
      Repair(IsHeap(true, lessFn, before, 0, |before|), i, |bh|, before);
    }

    /** The block at the end leaves the queue. */
    method Pop() returns (block: CachedBlock)
      requires Valid() && |bh| > 0
      modifies this`bh, this`entries, Repr`heapIdx
      ensures Valid()
      ensures block == old(bh[|bh| - 1]) && bh == old(bh[..|bh| - 1])
      ensures block.heapIdx == -1
      ensures entries == old(entries[..|bh| - 1])
      ensures old(Indexed()) ==> Indexed()
    {
      var n := |bh|;
      block := bh[n - 1];
      block.heapIdx := -1;
      bh := bh[..n - 1];
      entries := entries[..n - 1];
    }

    /** heap.Remove up to the final Pop: the block at i is brought to the end, out of the heap. */
    method Exclude(i: nat)
      requires Valid() && i < |bh|
      modifies this`bh, this`entries, Repr`heapIdx
      ensures Valid() && Rearranged()
      ensures bh[|bh| - 1] == old(bh[i]) && entries[|bh| - 1] == old(entries[i])
      ensures old(HeapOrdered()) ==> IsHeap(true, lessFn, entries, 0, |bh| - 1)
    {
      hide IsHeap, Swapped;
      var n := |bh| - 1;
      ghost var b, before, was := bh[i], entries, HeapOrdered();
      PrefixIsHeap(true, lessFn, before, 0, n);
      if n != i {
        Swap(i, n);
        Repair(was, i, n, before);
      }
      assert bh[n] == b;
    }

    /** heap.Remove */
    method Remove(i: nat) returns (block: CachedBlock)
      requires Valid() && i < |bh|
      modifies this`bh, this`entries, Repr`heapIdx
      ensures Valid()
      ensures block == old(bh[i]) && block.heapIdx == -1
      ensures |bh| == |old(bh)| - 1
      ensures multiset(bh) == multiset(old(bh)) - multiset{old(bh[i])}
      ensures multiset(entries) == multiset(old(entries)) - multiset{old(entries[i])}
      ensures old(Indexed()) ==> Indexed()
      ensures old(HeapOrdered()) ==> HeapOrdered()
    {
      hide IsHeap;
      ghost var bs, es := bh, entries;
      Exclude(i);
      DropLast(bs, bh, bs[i]);
      DropLast(es, entries, es[i]);
      PrefixIsHeap(true, lessFn, entries, 0, |bh| - 1);
      block := Pop();
    }

    // -------------------------------------------------------------------------------------------
    // The height bracket

    ghost function Range(): Bracket
      reads this`minHeight, this`maxHeight
    {
      Bracket(minHeight, maxHeight)
    }

    ghost function Contents(): View
      reads this`minHeight, this`maxHeight, this`entries
    {
      View(entries, Range())
    }

    method UpdateMinMax(h: uint32) returns (updated: bool)
      modifies this`minHeight, this`maxHeight
      ensures Range() == old(Range()).Widen(h)
      ensures updated <==> !old(Range()).Holds(h)
    {
      updated := false;
      if h > maxHeight {
        maxHeight := h;
        updated := true;
      }
      if h < minHeight {
        minHeight := h;
        updated := true;
      }
    }

    method RescanMinMax()
      requires Valid()
      modifies this`minHeight, this`maxHeight
      ensures Range() == old(Range()).WidenAll(Heights(entries))
    {
      for i := 0 to |bh|
        invariant Valid() && Range() == old(Range()).WidenAll(Heights(entries)[..i])
      {
        WidenAllSnoc(old(Range()), Heights(entries)[..i], Heights(entries)[i]);
        assert Heights(entries)[..i + 1] == Heights(entries)[..i] + [Heights(entries)[i]];
        assert bh[i].Snapshot() == entries[i];
        var _ := UpdateMinMax(bh[i].summary.height);
      }
      assert Heights(entries)[..|bh|] == Heights(entries);
    }

    method RescanMinMaxForAdd(height: uint32)
      modifies this`minHeight, this`maxHeight
      ensures Range() == old(Range()).Widen(height)
    {
      var _ := UpdateMinMax(height);
    }

    method RescanMinMaxForRemove(height: uint32)
      requires Valid()
      modifies this`minHeight, this`maxHeight
      ensures Range() == old(Range()).AfterRemove(height, Heights(entries))
    {
      if height == minHeight || height == maxHeight {
        RescanMinMax();
      }
    }

    method RescanMinMaxForUpdate(heightAdd: uint32, heightRemove: uint32)
      requires Valid()
      modifies this`minHeight, this`maxHeight
      ensures Range() == old(Range()).AfterUpdate(heightAdd, heightRemove, Heights(entries))
    {
      if (heightRemove == minHeight && heightAdd >= heightRemove) ||
         (heightRemove == maxHeight && heightAdd <= heightRemove) {
        RescanMinMax();
      }
      var _ := UpdateMinMax(heightAdd);
    }

    // -------------------------------------------------------------------------------------------
    // The queue

    constructor (capacity: nat)
      ensures Valid() && Indexed() && HeapOrdered() && fresh(Repr)
      ensures bh == [] && this.capacity == capacity && !needsReheap
      ensures Contents() == CREATED
      ensures forall a, b :: lessFn(a, b) == LessByAccessTimeThenCount(1, a, b)
    {
      bh, entries, Repr := [], [], {};
      this.capacity := capacity;
      needsReheap := false;
      minHeight, maxHeight := MAX_UINT32, -1;
      lessFn := (a, b) => LessByAccessTimeThenCount(1, a, b);
    }

    method SetLessFn(lessFn: Comparator)
      modifies this`lessFn
      ensures this.lessFn == lessFn
    {
      this.lessFn := lessFn;
    }

    /** Push: a new block at the end, not yet in heap order. */
    method Push(summary: BlockDataBasic, now: int)
      requires Valid()
      modifies this`bh, this`entries, this`Repr, this`minHeight, this`maxHeight
      ensures Valid() && fresh(Repr - old(Repr)) && Repr >= old(Repr)
      ensures |bh| == |old(bh)| + 1 && bh[..|old(bh)|] == old(bh) && bh[|old(bh)|] !in old(Repr)
      ensures entries == old(entries) + [Entry(summary, 1, now)]
      ensures old(Indexed()) ==> Indexed()
      ensures Range() == old(Range()).Widen(summary.height)
    {
      var b := new CachedBlock(summary, 1, now, |bh|);
      var _ := UpdateMinMax(summary.height);
      bh := bh + [b];
      entries := entries + [b.Snapshot()];
      Repr := Repr + {b};
    }

    /** heap.Push */
    method HeapPush(summary: BlockDataBasic, now: int)
      requires Valid()
      modifies this`bh, this`entries, this`Repr, this`minHeight, this`maxHeight, Repr`heapIdx
      ensures Valid() && fresh(Repr - old(Repr)) && Repr >= old(Repr)
      ensures Grows(old(Contents()), Contents(), Entry(summary, 1, now))
      ensures old(Indexed()) ==> Indexed()
      ensures old(HeapOrdered()) ==> HeapOrdered()
    {
      ghost var before, was := entries, HeapOrdered();
      Push(summary, now);
      AppendedRises(was, lessFn, before, entries);
      Up(was, |bh| - 1, |bh|);
    }

    /** UpdateBlock: the block, which must be in the queue, stands for another summary from now on. */
    method UpdateBlock(b: CachedBlock?, summary: BlockDataBasic, now: int)
      requires Valid()
      requires b != null ==> Indexed() && 0 <= b.heapIdx < |bh| && bh[b.heapIdx] == b
      modifies this`bh, this`entries, this`minHeight, this`maxHeight, Repr
      ensures Valid() && |bh| == |old(bh)| && multiset(bh) == multiset(old(bh))
      ensures b == null ==> bh == old(bh) && Contents() == old(Contents())
      ensures b != null ==> Indexed() && b.Snapshot() == Entry(summary, 1, now)
      ensures b != null ==> Replaces(old(Contents()), Contents(), old(b.Snapshot()), Entry(summary, 1, now))
      ensures old(HeapOrdered()) ==> HeapOrdered()
    {
      if b != null {
        var heightAdded, heightRemoved := summary.height, b.summary.height;
        Replace(b, summary, now);
        RescanMinMaxForUpdate(heightAdded, heightRemoved);
      }
    }

    /** UpdateBlock without the rescan. */
    method Replace(b: CachedBlock, summary: BlockDataBasic, now: int)
      requires Valid() && Indexed() && 0 <= b.heapIdx < |bh| && bh[b.heapIdx] == b
      modifies this`bh, this`entries, Repr
      ensures Valid() && Indexed() && |bh| == |old(bh)| && multiset(bh) == multiset(old(bh))
      ensures b.Snapshot() == Entry(summary, 1, now)
      ensures multiset(entries) == multiset(old(entries)) - multiset{old(b.Snapshot())} + multiset{Entry(summary, 1, now)}
      ensures old(HeapOrdered()) ==> HeapOrdered()
    {
      ghost var before := entries;
      var i := b.heapIdx;
      ReplaceOne(before, i, Entry(summary, 1, now));
      Restamp(b, summary, now);
      Fix(i, before);
    }

    /** The assignments of UpdateBlock to the block itself. */
    method Restamp(b: CachedBlock, summary: BlockDataBasic, now: int)
      requires Valid() && Indexed() && 0 <= b.heapIdx < |bh| && bh[b.heapIdx] == b
      modifies this`entries, b
      ensures Valid() && Indexed() && b.heapIdx == old(b.heapIdx)
      ensures b.Snapshot() == Entry(summary, 1, now)
      ensures entries == old(entries)[b.heapIdx := Entry(summary, 1, now)]
    {
      b.summary := summary;
      b.accesses := 0;
      var _ := b.Access(now);
      entries := entries[b.heapIdx := b.Snapshot()];
    }

    /** Insert. The source reads the clock twice: `t0` stamps the block that is compared or pushed, `t1`
        the root that is made to stand for the summary. */
    method Insert(summary: BlockDataBasic, t0: int, t1: int) returns (added: bool, removed: Option<Hash>)
      requires Valid() && Indexed()
      modifies this`bh, this`entries, this`Repr, this`minHeight, this`maxHeight, Repr
      ensures Valid() && Indexed() && fresh(Repr - old(Repr)) && Repr >= old(Repr)
      ensures Inserted(capacity, lessFn, old(Contents()), Contents(), summary, t0, t1, added, removed)
      ensures |old(bh)| <= capacity ==> |bh| <= capacity
      ensures old(HeapOrdered()) ==> HeapOrdered()
    {
      if capacity == 0 {
        added, removed := false, None;
      } else if capacity <= |bh| {
        added, removed := InsertFull(summary, t0, t1);
      } else {
        HeapPush(summary, t0);
        RescanMinMaxForAdd(summary.height);
        added, removed := true, None;
      }
    }

    /** The body of the loop in Insert, which the source never runs twice. */
    method InsertFull(summary: BlockDataBasic, t0: int, t1: int) returns (added: bool, removed: Option<Hash>)
      requires Valid() && Indexed() && 0 < capacity <= |bh|
      modifies this`bh, this`entries, this`minHeight, this`maxHeight, Repr
      ensures Valid() && Indexed()
      ensures Inserted(capacity, lessFn, old(Contents()), Contents(), summary, t0, t1, added, removed)
      ensures old(HeapOrdered()) ==> HeapOrdered()
    {
      hide IsHeap, Inserted, Replaces;
      var candidate := Entry(summary, 1, t0);
      var root := bh[0];
      assert root.Snapshot() == entries[0];
      ghost var before := Contents();
      added, removed := false, None;
      if lessFn(Entry(root.summary, root.accesses, root.accessTime), candidate) {
        added, removed := true, Some(root.summary.hash);
        UpdateBlock(root, summary, t1);
      }
      InsertedWhenFull(capacity, lessFn, before, Contents(), summary, t0, t1);
    }

    /** RemoveIndex */
    method RemoveIndex(idx: nat)
      requires Valid() && idx < |bh|
      modifies this`bh, this`entries, this`minHeight, this`maxHeight, Repr`heapIdx
      ensures Valid()
      ensures multiset(bh) == multiset(old(bh)) - multiset{old(bh[idx])} && old(bh[idx]).heapIdx == -1
      ensures Drops(old(Contents()), Contents(), old(entries[idx]))
      ensures old(Indexed()) ==> Indexed()
      ensures old(HeapOrdered()) ==> HeapOrdered()
    {
      hide IsHeap;
      ghost var e, n := entries[idx], |entries|;
      assert bh[idx].Snapshot() == e && e in multiset(entries);
      var removedHeight := bh[idx].summary.height;
      var _ := Remove(idx);
      RescanMinMaxForRemove(removedHeight);
      assert |entries| == |bh| == n - 1;
    }

    /** RemoveBlock. It gives up on the block at the root, whatever its hash, and on blocks that carry no
        position, as all blocks of the API cache do. */
    method RemoveBlock(b: CachedBlock?)
      requires Valid()
      modifies this`bh, this`entries, this`minHeight, this`maxHeight, Repr`heapIdx
      ensures Valid()
      ensures old(Indexed()) ==> Indexed()
      ensures old(HeapOrdered()) ==> HeapOrdered()
      ensures if old(b != null && 0 < b.heapIdx < |bh| && entries[b.heapIdx].summary.hash == b.summary.hash)
              then Drops(old(Contents()), Contents(), old(entries[b.heapIdx]))
              else bh == old(bh) && Contents() == old(Contents())
    {
      if b != null && b.heapIdx > 0 && b.heapIdx < |bh| {
        assert bh[b.heapIdx].Snapshot() == entries[b.heapIdx];
        if bh[b.heapIdx].summary.hash == b.summary.hash {
          RemoveIndex(b.heapIdx);
        }
      }
    }

    /** Reheap */
    method Reheap()
      requires Valid()
      modifies this`bh, this`entries, this`needsReheap, Repr`heapIdx
      ensures Valid() && Rearranged() && HeapOrdered() && !needsReheap
      ensures Reorders(old(Contents()), Contents())
    {
      needsReheap := false;
      Init();
    }

    /** ResetHeap: the queue takes over the given blocks, as if each had just been accessed once. The
        slice of the caller is not reordered, since the queue makes a copy of it. */
    method ResetHeap(blocks: seq<CachedBlock>, now: int, ghost summaries: seq<BlockDataBasic>)
      requires |summaries| == |blocks|
      requires forall k :: 0 <= k < |blocks| ==> blocks[k].summary == summaries[k]
      modifies this`bh, this`entries, this`Repr, this`minHeight, this`maxHeight, this`needsReheap
      modifies (set b <- blocks)
      ensures Valid() && HeapOrdered() && !needsReheap
      ensures Repr == (set b <- blocks)
      ensures multiset(bh) == multiset(blocks) && |bh| == |blocks|
      ensures Resets(Contents(), Stamped(summaries, now))
      ensures Distinct(blocks) ==> Indexed()
    {
      maxHeight := -1;
      minHeight := MAX_UINT32;
      ghost var es := Stamped(summaries, now);
      StampAll(blocks, now, es);
      Adopt(blocks, es);
    }

    /** ResetHeap behind its loop. */
    method Adopt(blocks: seq<CachedBlock>, ghost es: seq<Entry>)
      requires |es| == |blocks| && forall k :: 0 <= k < |blocks| ==> blocks[k].Snapshot() == es[k]
      modifies this`bh, this`entries, this`Repr, this`needsReheap, (set b <- blocks)`heapIdx
      ensures Valid() && HeapOrdered() && !needsReheap
      ensures Repr == (set b <- blocks)
      ensures multiset(bh) == multiset(blocks) && |bh| == |blocks|
      ensures multiset(entries) == multiset(es)
      ensures old(forall k :: 0 <= k < |blocks| ==> blocks[k].heapIdx == k) ==> Indexed()
    {
      bh := blocks;
      entries := es;
      Repr := set b <- blocks;
      needsReheap := false;
      Init();
    }

    /** The loop of ResetHeap over the given blocks. */
    method StampAll(blocks: seq<CachedBlock>, now: int, ghost es: seq<Entry>)
      requires |es| == |blocks|
      requires forall k :: 0 <= k < |blocks| ==> es[k] == Entry(blocks[k].summary, 1, now)
      modifies this`minHeight, this`maxHeight
      modifies (set b <- blocks)`heapIdx, (set b <- blocks)`accesses, (set b <- blocks)`accessTime
      ensures Range() == old(Range()).WidenAll(Heights(es))
      ensures forall k :: 0 <= k < |blocks| ==> blocks[k].Snapshot() == es[k]
      ensures Distinct(blocks) ==> forall k :: 0 <= k < |blocks| ==> blocks[k].heapIdx == k
    {
      for i := 0 to |blocks|
        invariant Range() == old(Range()).WidenAll(Heights(es)[..i])
        invariant forall k :: 0 <= k < i ==> blocks[k].accesses == 1 && blocks[k].accessTime == now
        invariant Distinct(blocks) ==> forall k :: 0 <= k < i ==> blocks[k].heapIdx == k
      {
        WidenAllSnoc(old(Range()), Heights(es)[..i], Heights(es)[i]);
        assert Heights(es)[..i + 1] == Heights(es)[..i] + [Heights(es)[i]];
        var _ := UpdateMinMax(blocks[i].summary.height);
        blocks[i].heapIdx := i;
        blocks[i].accesses := 1;
        blocks[i].accessTime := now;
      }
      assert Heights(es)[..|blocks|] == Heights(es);
    }
  }

  /** Each summary with a single access at time `now`. */
  function Stamped(ss: seq<BlockDataBasic>, now: int): (es: seq<Entry>)
    ensures |es| == |ss| && forall i :: 0 <= i < |ss| ==> es[i] == Entry(ss[i], 1, now)
  {
    seq(|ss|, i requires 0 <= i < |ss| => Entry(ss[i], 1, now))
  }

  ghost predicate Distinct<T>(s: seq<T>) {
    forall i, j :: 0 <= i < j < |s| ==> s[i] != s[j]
  }
}
