/** APICache of hcdataapi/apicache.go: the map from hashes to blocks, the index from heights to hashes, and
    the queue that decides what is evicted. */
module ApiCache {
  import opened Options
  import opened CachedBlocks
  import opened SeqMultisets
  import opened HeapOrder
  import opened QueueRuns
  import opened BlockQueue
  import opened CacheRuns

  ghost function HashSet(es: multiset<Entry>): set<Hash> {
    set e | e in es :: e.summary.hash
  }

  /** No hash occurs twice. */
  ghost predicate DistinctHashes(es: multiset<Entry>) {
    forall e, f :: e in es && f in es && e.summary.hash == f.summary.hash ==> e == f && es[e] == 1
  }

  lemma HashesWhenAdded(vs: multiset<Entry>, e: Entry)
    requires DistinctHashes(vs) && e.summary.hash !in HashSet(vs)
    ensures DistinctHashes(vs + multiset{e})
    ensures HashSet(vs + multiset{e}) == HashSet(vs) + {e.summary.hash}
  {
    var ws := vs + multiset{e};
    assert forall x :: x in ws <==> x == e || x in vs;
    assert e in ws;
  }

  lemma HashesWhenTaken(vs: multiset<Entry>, e: Entry)
    requires DistinctHashes(vs) && e in vs
    ensures DistinctHashes(vs - multiset{e})
    ensures e.summary.hash in HashSet(vs)
    ensures HashSet(vs - multiset{e}) == HashSet(vs) - {e.summary.hash}
  {
    var ws := vs - multiset{e};
    assert vs[e] == 1;
    assert forall x :: x in ws <==> x != e && x in vs;
  }

  /** Exactly the hashes in the queue are keys of the map, and none of them is in the queue twice. */
  ghost predicate Agree(keys: set<Hash>, v: View) {
    keys == HashSet(multiset(v.es)) && DistinctHashes(multiset(v.es))
  }

  /** The keys of the map after a summary that was not among them was offered to the queue. */
  ghost function KeysAfter(keys: set<Hash>, hash: Hash, added: bool, removed: Option<Hash>): set<Hash> {
    keys - (if removed.Some? then {removed.value} else {}) + (if added then {hash} else {})
  }

  /** Following what Insert reports keeps map and queue in agreement, whatever the comparator. */
  lemma InsertKeepsAgreement(keys: set<Hash>, capacity: nat, less: Comparator, v: View, w: View,
                             summary: BlockDataBasic, t1: int, t2: int, added: bool, removed: Option<Hash>)
    requires Agree(keys, v) && summary.hash !in keys
    requires Inserted(capacity, less, v, w, summary, t1, t2, added, removed)
    ensures Agree(KeysAfter(keys, summary.hash, added, removed), w)
    ensures removed.Some? ==> added && removed.value in keys
  {
    hide HashSet, DistinctHashes;
    var vs := multiset(v.es);
    if added && |v.es| < capacity {
      HashesWhenAdded(vs, Entry(summary, 1, t1));
    } else if added {
      HashesWhenTaken(vs, v.es[0]);
      HashesWhenAdded(vs - multiset{v.es[0]}, Entry(summary, 1, t2));
    }
  }

  /** An entry that leaves the queue alone leaves its hash behind in the map. */
  lemma DropDisagrees(keys: set<Hash>, v: View, w: View, e: Entry)
    requires Agree(keys, v) && Drops(v, w, e)
    ensures e.summary.hash in keys && !Agree(keys, w)
  {
    hide DistinctHashes;
    HashesWhenTaken(multiset(v.es), e);
  }

  class APICache {
    var isEnabled: bool
    const capacity: nat
    var blockCache: map<Hash, CachedBlock>
    var mainchainBlocks: seq<Hash>
    const expireQueue: BlockPriorityQueue
    var hits: nat
    var misses: nat
    /** The blocks made for the map, and their summaries. */
    ghost var Repr: set<CachedBlock>
    ghost var cached: map<Hash, BlockDataBasic>
    /** The last summary stored at each height. */
    ghost var stored: map<int, BlockDataBasic>

    ghost predicate Valid()
      reads this, expireQueue, expireQueue.Repr, Repr
    {
      && expireQueue.Valid() && expireQueue.Indexed()
      && expireQueue.capacity == capacity && |expireQueue.bh| <= capacity
      && Agree(blockCache.Keys, expireQueue.Contents())
      && Map() && Repr !! expireQueue.Repr
      && Sound(Contents())
    }

    /** The map holds blocks of its own, which know no position in the queue. */
    ghost predicate Map()
      reads this, Repr
    {
      && cached.Keys == blockCache.Keys && (forall b <- Repr :: b.heapIdx == -1)
      && forall h <- blockCache :: blockCache[h] in Repr && blockCache[h].summary == cached[h]
    }

    /** What lookups depend on. */
    ghost function Contents(): CacheView
      reads this`mainchainBlocks, this`cached, this`stored
    {
      CacheView(mainchainBlocks, cached, stored)
    }

    constructor (capacity: nat)
      ensures Valid() && this.capacity == capacity && isEnabled
      ensures blockCache == map[] && Contents() == NOTHING
      ensures expireQueue.Contents() == CREATED && expireQueue.HeapOrdered()
      ensures fresh(Repr) && fresh(expireQueue) && fresh(expireQueue.Repr)
    {
      isEnabled := true;
      this.capacity := capacity;
      blockCache, mainchainBlocks := map[], [];
      hits, misses := 0, 0;
      Repr, cached, stored := {}, map[], map[];
      expireQueue := new BlockPriorityQueue(capacity);
    }

    /** The part of StoreBlockSummary that keeps the index of heights. */
    method Record(summary: BlockDataBasic)
      modifies this`mainchainBlocks, this`stored
      ensures mainchainBlocks == IndexAfter(old(mainchainBlocks), summary.height, summary.hash)
      ensures stored == old(stored)[summary.height := summary]
    {
      var height := summary.height;
      if |mainchainBlocks| < height {
        mainchainBlocks := mainchainBlocks + seq(height - |mainchainBlocks|, _ => ZERO_HASH);
      }
      if |mainchainBlocks| == height {
        mainchainBlocks := mainchainBlocks + [summary.hash];
      } else {
        mainchainBlocks := mainchainBlocks[height := summary.hash];
      }
      stored := stored[summary.height := summary];
    }

    /** What StoreBlockSummary does to the map once the queue has answered. The new block for the map is
        none of the queue's. */
    method UpdateMap(summary: BlockDataBasic, t0: int, added: bool, removed: Option<Hash>)
      requires Map()
      modifies this`blockCache, this`Repr, this`cached
      ensures Map() && fresh(Repr - old(Repr)) && Repr >= old(Repr)
      ensures blockCache.Keys == KeysAfter(old(blockCache.Keys), summary.hash, added, removed)
      ensures cached == CachedAfter(old(cached), summary, added, removed)
      ensures added ==> blockCache[summary.hash].Snapshot() == Entry(summary, 1, t0)
    {
      var cachedBlock := new CachedBlock(summary, 0, 0, -1);
      var _ := cachedBlock.Access(t0);
      if removed.Some? {
        blockCache := blockCache - {removed.value};
        cached := cached - {removed.value};
      }
      if added {
        blockCache := blockCache[summary.hash := cachedBlock];
        cached := cached[summary.hash := summary];
        Repr := Repr + {cachedBlock};
      }
    }

    /** Offers the summary to the queue. */
    method Offer(summary: BlockDataBasic, t1: int, t2: int) returns (added: bool, removed: Option<Hash>)
      requires Valid() && summary.hash !in blockCache
      modifies expireQueue, expireQueue.Repr
      ensures expireQueue.Valid() && expireQueue.Indexed()
      ensures expireQueue.capacity == capacity && |expireQueue.bh| <= capacity
      ensures Map() && Repr !! expireQueue.Repr && fresh(expireQueue.Repr - old(expireQueue.Repr))
      ensures Inserted(capacity, expireQueue.lessFn, old(expireQueue.Contents()), expireQueue.Contents(), summary,
                       t1, t2, added, removed)
      ensures Agree(KeysAfter(blockCache.Keys, summary.hash, added, removed), expireQueue.Contents())
      ensures Reported(Contents(), summary, added, removed)
      ensures expireQueue.lessFn == old(expireQueue.lessFn)
      ensures old(expireQueue.HeapOrdered()) ==> expireQueue.HeapOrdered()
    {
      hide Inserted, KeysAfter, HashSet, DistinctHashes, IsHeap, Sound;
      ghost var v := expireQueue.Contents();
      added, removed := expireQueue.Insert(summary, t1, t2);
      InsertKeepsAgreement(blockCache.Keys, capacity, expireQueue.lessFn, v, expireQueue.Contents(), summary, t1, t2,
                           added, removed);
    }

    /** StoreBlockSummary; t0, t1 and t2 are the clock readings made on the way. */
    method StoreBlockSummary(summary: BlockDataBasic, t0: int, t1: int, t2: int)
      returns (ghost added: bool, ghost removed: Option<Hash>)
      requires Valid()
      modifies this`blockCache, this`mainchainBlocks, this`Repr, this`cached, this`stored
      modifies expireQueue, expireQueue.Repr
      ensures Valid() && fresh(Repr - old(Repr)) && fresh(expireQueue.Repr - old(expireQueue.Repr))
      ensures isEnabled ==>
        && Reported(old(Contents()), summary, added, removed)
        && Contents() == Stored(old(Contents()), summary, added, removed)
      ensures !isEnabled ==> Contents() == old(Contents())
      ensures !isEnabled || summary.hash in old(blockCache) ==> expireQueue.Contents() == old(expireQueue.Contents())
      ensures isEnabled && summary.hash !in old(blockCache) ==>
        && Inserted(capacity, expireQueue.lessFn, old(expireQueue.Contents()), expireQueue.Contents(), summary,
                    t1, t2, added, removed)
        && (added ==> blockCache[summary.hash].Snapshot() == Entry(summary, 1, t0))
      ensures expireQueue.lessFn == old(expireQueue.lessFn)
      ensures old(expireQueue.HeapOrdered()) ==> expireQueue.HeapOrdered()
    {
      hide Inserted, Agree, Sound, KeysAfter, IndexAfter, IsHeap;
      added, removed := false, None;
      if isEnabled {
        ghost var before := Contents();
        Record(summary);
        StoredIsSound(before, summary, false, None);
        assert Contents() == Stored(before, summary, false, None);
        if summary.hash !in blockCache {
          var wasAdded, removedBlock := Offer(summary, t1, t2);
          UpdateMap(summary, t0, wasAdded, removedBlock);
          added, removed := wasAdded, removedBlock;
          StoredIsSound(before, summary, added, removed);
        }
      }
    }

    /** getCachedBlockByHash. A hit counts as an access of the block in the map; the queue, which holds
        another object for the same block, is only told that it may want to be reordered. */
    method GetCachedBlockByHash(hash: Hash, now: int) returns (cachedBlock: CachedBlock?)
      requires Valid()
      modifies this`hits, this`misses, expireQueue`needsReheap, Repr`accesses, Repr`accessTime
      ensures Valid() && expireQueue.Contents() == old(expireQueue.Contents())
      ensures if hash in blockCache
              then cachedBlock == blockCache[hash] && cachedBlock.accesses == old(blockCache[hash].accesses) + 1 &&
                   cachedBlock.accessTime == now && hits == old(hits) + 1 && misses == old(misses) &&
                   expireQueue.needsReheap
              else cachedBlock == null && misses == old(misses) + 1 && hits == old(hits) &&
                   expireQueue.needsReheap == old(expireQueue.needsReheap)
    {
      hide Agree, Sound;
      cachedBlock := null;
      if hash in blockCache {
        cachedBlock := blockCache[hash];
        var _ := cachedBlock.Access(now);
        expireQueue.needsReheap := true;
        hits := hits + 1;
      } else {
        misses := misses + 1;
      }
    }

    /** GetCachedBlockByHeight */
    method GetCachedBlockByHeight(height: int, now: int) returns (cachedBlock: CachedBlock?)
      requires Valid()
      modifies this`hits, this`misses, expireQueue`needsReheap, Repr`accesses, Repr`accessTime
      ensures Valid() && expireQueue.Contents() == old(expireQueue.Contents())
      ensures cachedBlock != null <==>
        0 <= height < |mainchainBlocks| && mainchainBlocks[height] in blockCache
      ensures cachedBlock != null ==> cachedBlock == blockCache[mainchainBlocks[height]]
    {
      if height >= |mainchainBlocks| || height < 0 {
        return null;
      }
      cachedBlock := GetCachedBlockByHash(mainchainBlocks[height], now);
    }

    /** GetBlockSummary: what the map holds for the hash last stored at that height, if that is still queued.
        When that is the summary last stored there is said by CacheRuns. */
    method GetBlockSummary(height: int, now: int) returns (summary: Option<BlockDataBasic>)
      requires Valid()
      modifies this`hits, this`misses, expireQueue`needsReheap, Repr`accesses, Repr`accessTime
      ensures Valid() && expireQueue.Contents() == old(expireQueue.Contents())
      ensures summary == Found(Contents(), height)
      ensures height in stored ==>
        (summary.Some? <==> stored[height].hash in HashSet(multiset(expireQueue.entries)))
      ensures height in stored && summary.Some? ==> summary.value.hash == stored[height].hash
    {
      var cachedBlock := GetCachedBlockByHeight(height, now);
      if cachedBlock != null {
        summary := Some(cachedBlock.summary);
      } else {
        summary := None;
      }
    }

    /** Whether RemoveBlock finds the block where it says it is: in the queue, but not at the root. */
    ghost predicate Locates(b: CachedBlock)
      reads this, expireQueue, expireQueue.Repr, b
    {
      0 < b.heapIdx < |expireQueue.bh| && |expireQueue.entries| == |expireQueue.bh| &&
      expireQueue.entries[b.heapIdx].summary.hash == b.summary.hash
    }

    /** RemoveCachedBlock, for any block. A block that the cache handed out knows no position in the queue, so
        that nothing happens. A block that does know one takes its entry out of the queue and, as the map is
        only touched when the hash does not parse, leaves a key that the queue has lost. */
    method RemoveCachedBlock(cachedBlock: CachedBlock)
      requires Valid()
      modifies expireQueue, expireQueue.Repr
      ensures cached == old(cached) && blockCache == old(blockCache)
      ensures old(cachedBlock in Repr) ==> !old(Locates(cachedBlock))
      ensures !old(Locates(cachedBlock)) ==> Valid() && expireQueue.Contents() == old(expireQueue.Contents())
      ensures old(Locates(cachedBlock)) ==>
        && Drops(old(expireQueue.Contents()), expireQueue.Contents(), old(expireQueue.entries[cachedBlock.heapIdx]))
        && old(cachedBlock.summary.hash) in blockCache && !Agree(blockCache.Keys, expireQueue.Contents())
    {
      hide Agree, Sound, IsHeap, Drops;
      ghost var v, found := expireQueue.Contents(), Locates(cachedBlock);
      ghost var e := if found then v.es[cachedBlock.heapIdx] else Entry(cachedBlock.summary, 0, 0);
      expireQueue.RemoveBlock(cachedBlock);
      if found {
        DropDisagrees(blockCache.Keys, v, expireQueue.Contents(), e);
      }
    }

    method SetLessFn(lessFn: Comparator)
      requires Valid()
      modifies expireQueue`lessFn
      ensures Valid() && expireQueue.lessFn == lessFn
    {
      expireQueue.SetLessFn(lessFn);
    }

    /** One tick of WatchPriorityQueue, which reorders the queue once it has been quiet for a while. */
    method Watch(quiet: bool)
      requires Valid()
      modifies expireQueue`bh, expireQueue`entries, expireQueue`needsReheap, expireQueue.Repr`heapIdx
      ensures Valid()
      ensures Reorders(old(expireQueue.Contents()), expireQueue.Contents())
      ensures old(expireQueue.needsReheap) && quiet ==> expireQueue.HeapOrdered() && !expireQueue.needsReheap
    {
      if expireQueue.needsReheap && quiet {
        expireQueue.Reheap();
      }
    }
  }
}
