/** The API cache as a client uses it: a new cache, and any stores and lookups on it. */
module CacheClients {
  import opened Options
  import opened CachedBlocks
  import opened CacheRuns
  import opened HeapOrder
  import opened QueueRuns
  import opened ApiCache

  /** A call, with the clock readings made on the way. */
  datatype Call = Put(summary: BlockDataBasic, t0: int, t1: int, t2: int) | Get(height: int, now: int)

  ghost predicate Follows(call: Call, r: Request) {
    match call
    case Put(s, _, _, _) => r.Store? && r.summary == s
    case Get(height, _) => r.Lookup? && r.height == height
  }

  /** What the lookups answered. */
  ghost predicate Answers(rs: seq<Request>, answers: seq<Option<BlockDataBasic>>) {
    |answers| == |rs| && forall k :: 0 <= k < |rs| && rs[k].Lookup? ==> answers[k] == rs[k].answer
  }

  /** A store, as a request of a run. */
  method AskStore(cache: APICache, s: BlockDataBasic, t0: int, t1: int, t2: int) returns (ghost r: Request)
    requires cache.Valid() && cache.isEnabled
    modifies cache, cache.Repr, cache.expireQueue, cache.expireQueue.Repr
    ensures cache.Valid() && cache.isEnabled
    ensures fresh(cache.Repr - old(cache.Repr)) && fresh(cache.expireQueue.Repr - old(cache.expireQueue.Repr))
    ensures r.Store? && r.summary == s && Serves(old(cache.Contents()), r, cache.Contents())
  {
    hide APICache.Valid, Inserted, IsHeap, Stored, Reported;
    ghost var added, removed := cache.StoreBlockSummary(s, t0, t1, t2);
    r := Store(s, added, removed);
  }

  /** A call, as a request of a run. */
  method Ask(cache: APICache, call: Call) returns (answer: Option<BlockDataBasic>, ghost r: Request)
    requires cache.Valid() && cache.isEnabled
    modifies cache, cache.Repr, cache.expireQueue, cache.expireQueue.Repr
    ensures cache.Valid() && cache.isEnabled
    ensures fresh(cache.Repr - old(cache.Repr)) && fresh(cache.expireQueue.Repr - old(cache.expireQueue.Repr))
    ensures Serves(old(cache.Contents()), r, cache.Contents()) && Follows(call, r)
    ensures r.Lookup? ==> answer == r.answer
  {
    hide APICache.Valid, Stored, Reported, Found, HashSet;
    answer := None;
    match call {
      case Put(s, t0, t1, t2) =>
        r := AskStore(cache, s, t0, t1, t2);
      case Get(height, now) =>
        answer := cache.GetBlockSummary(height, now);
        r := Lookup(height, answer);
    }
  }

  lemma AddedWhenNotFull(capacity: nat, less: Comparator, v: View, w: View, s: BlockDataBasic, t1: int, t2: int,
                         added: bool, removed: Option<Hash>)
    requires Inserted(capacity, less, v, w, s, t1, t2, added, removed)
    ensures |v.es| < capacity ==> added
  {
  }

  /** Any calls on a new cache make a run. */
  method Serve(capacity: nat, calls: seq<Call>)
    returns (cache: APICache, answers: seq<Option<BlockDataBasic>>, ghost rs: seq<Request>, ghost cs: seq<CacheView>)
    ensures fresh(cache) && cache.Valid() && cache.capacity == capacity
    ensures |rs| == |calls| && forall k :: 0 <= k < |calls| ==> Follows(calls[k], rs[k])
    ensures CacheRun(rs, cs) && cs[|rs|] == cache.Contents() && Answers(rs, answers)
    ensures HashesFixHeights(rs) ==> (RightUpTo(cs, |rs|) <==> NoOtherDataWhileCached(rs, cs))
  {
    hide APICache.Valid, CacheRun, HashesFixHeights, RightUpTo, NoOtherDataWhileCached, Serves, Follows;
    cache := new APICache(capacity);
    answers, rs, cs := [], [], [NOTHING];
    RunStarts();
    for i := 0 to |calls|
      invariant fresh(cache) && fresh(cache.Repr) && fresh(cache.expireQueue) && fresh(cache.expireQueue.Repr)
      invariant cache.Valid() && cache.isEnabled && cache.capacity == capacity
      invariant |rs| == i && |cs| == i + 1 && CacheRun(rs, cs) && cs[i] == cache.Contents()
      invariant forall k :: 0 <= k < i ==> Follows(calls[k], rs[k])
      invariant Answers(rs, answers)
    {
      var answer;
      ghost var r;
      answer, r := Ask(cache, calls[i]);
      RunGrows(rs, cs, r, cache.Contents());
      rs, cs, answers := rs + [r], cs + [cache.Contents()], answers + [answer];
    }
    if HashesFixHeights(rs) {
      LookupsAreRightExactly(rs, cs);
    }
  }

  lemma RunStarts()
    ensures CacheRun([], [NOTHING])
  {
  }

  lemma RunGrows(rs: seq<Request>, cs: seq<CacheView>, r: Request, c: CacheView)
    requires |cs| == |rs| + 1 && CacheRun(rs, cs) && Serves(cs[|rs|], r, c)
    ensures |cs + [c]| == |rs + [r]| + 1 && CacheRun(rs + [r], cs + [c])
  {
    hide Serves;
  }

  /** The same block stored twice with different data: the second store is dropped, and the lookup answers
      with the first. */
  method StoredAgain(capacity: nat, first: BlockDataBasic, second: BlockDataBasic, now: int)
    returns (found: Option<BlockDataBasic>)
    requires capacity > 0 && first.hash == second.hash && first.height == second.height && first.data != second.data
    ensures found == Some(first) && found != Some(second)
  {
    hide APICache.Valid, Inserted, IsHeap, Stored, Reported, Found, HashSet;
    var cache := new APICache(capacity);
    ghost var added, removed := cache.StoreBlockSummary(first, now, now, now);
    AddedWhenNotFull(capacity, cache.expireQueue.lessFn, CREATED, cache.expireQueue.Contents(), first, now, now,
      added, removed);
    StoredEnters(NOTHING, first, added, removed);
    ghost var c := cache.Contents();
    ghost var r := AskStore(cache, second, now, now, now);
    StoredHere(c, second, r.added, r.removed);
    found := cache.GetBlockSummary(second.height, now);
  }

  lemma StoredEnters(c: CacheView, s: BlockDataBasic, added: bool, removed: Option<Hash>)
    requires Reported(c, s, added, removed) && s.hash !in c.cached && added
    ensures var c' := Stored(c, s, added, removed); s.hash in c'.cached && c'.cached[s.hash] == s
  {
  }
}
