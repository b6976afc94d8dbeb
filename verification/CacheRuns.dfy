/** What the API cache finds: the index from heights to hashes and the map from hashes to summaries, told on
    values, and which runs make every lookup find the summary last stored. */
module CacheRuns {
  import opened Options
  import opened CachedBlocks

  /** index: the hash last stored at each height; cached: the summaries in the map; stored: the summary last
      stored at each height, whether or not it is still cached. */
  datatype CacheView = CacheView(index: seq<Hash>, cached: map<Hash, BlockDataBasic>, stored: map<int, BlockDataBasic>)

  const NOTHING := CacheView([], map[], map[])

  function Padded(index: seq<Hash>, height: nat): (r: seq<Hash>)
    ensures |r| == if |index| < height then height else |index|
    ensures forall h :: 0 <= h < |r| ==> r[h] == if h < |index| then index[h] else ZERO_HASH
  {
    if |index| < height then index + seq(height - |index|, _ => ZERO_HASH) else index
  }

  function IndexAfter(index: seq<Hash>, height: nat, hash: Hash): (r: seq<Hash>)
    ensures |r| == if |index| <= height then height + 1 else |index|
    ensures forall h :: 0 <= h < |r| ==>
      r[h] == if h == height then hash else if h < |index| then index[h] else ZERO_HASH
  {
    var padded := Padded(index, height);
    if |padded| == height then padded + [hash] else padded[height := hash]
  }

  /** The summaries in the map after one that was not among them was offered to the queue. */
  function CachedAfter(cached: map<Hash, BlockDataBasic>, summary: BlockDataBasic, added: bool, removed: Option<Hash>)
    : map<Hash, BlockDataBasic>
  {
    var kept := if removed.Some? then cached - {removed.value} else cached;
    if added then kept[summary.hash := summary] else kept
  }

  /** StoreBlockSummary, given what the queue reports. A summary whose hash is cached already is dropped. */
  function Stored(c: CacheView, s: BlockDataBasic, added: bool, removed: Option<Hash>): CacheView {
    CacheView(IndexAfter(c.index, s.height, s.hash),
              if s.hash in c.cached then c.cached else CachedAfter(c.cached, s, added, removed),
              c.stored[s.height := s])
  }

  /** GetBlockSummary */
  function Found(c: CacheView, height: int): Option<BlockDataBasic> {
    if 0 <= height < |c.index| && c.index[height] in c.cached then Some(c.cached[c.index[height]]) else None
  }

  /** The queue is only asked about hashes that are not cached, and what it evicts for a newcomer is cached. */
  ghost predicate Reported(c: CacheView, s: BlockDataBasic, added: bool, removed: Option<Hash>) {
    && (s.hash in c.cached ==> !added && removed.None?)
    && (removed.Some? ==> added && removed.value in c.cached)
  }

  ghost predicate Sound(c: CacheView) {
    && (forall h <- c.cached :: c.cached[h].hash == h)
    && (forall h <- c.stored :: c.stored[h].height == h && 0 <= h < |c.index|)
    && (forall h :: 0 <= h < |c.index| ==> c.index[h] == if h in c.stored then c.stored[h].hash else ZERO_HASH)
  }

  lemma StoredIsSound(c: CacheView, s: BlockDataBasic, added: bool, removed: Option<Hash>)
    requires Sound(c)
    ensures Sound(Stored(c, s, added, removed))
  {
  }

  // ---------------------------------------------------------------------------------------------
  // One store

  /** A lookup at this height finds nothing or the summary last stored there. */
  ghost predicate RightAt(c: CacheView, height: int) {
    var r := Found(c, height);
    r.Some? ==> height in c.stored && r.value == c.stored[height]
  }

  ghost predicate Right(c: CacheView) {
    forall height: int :: RightAt(c, height)
  }

  /** At the height of a summary just stored lookups are right if and only if its hash was not cached, or was
      cached for that very summary. Otherwise they find the summary that was cached. */
  lemma StoredHere(c: CacheView, s: BlockDataBasic, added: bool, removed: Option<Hash>)
    requires Reported(c, s, added, removed)
    ensures var c' := Stored(c, s, added, removed);
      && (RightAt(c', s.height) <==> s.hash !in c.cached || c.cached[s.hash] == s)
      && (s.hash in c.cached ==> Found(c', s.height) == Some(c.cached[s.hash]))
      && (s.hash !in c.cached ==> Found(c', s.height) == if added then Some(s) else None)
  {
  }

  /** What keeps lookups right at all heights: besides, a hash that comes into the cache is no other height's,
      and the zero hashes that pad the index are not cached. */
  ghost predicate Harmless(c: CacheView, s: BlockDataBasic, added: bool, removed: Option<Hash>) {
    && (s.hash in c.cached ==> c.cached[s.hash] == s)
    && (added ==> forall h :: 0 <= h < |c.index| && h != s.height ==> c.index[h] != s.hash)
    && (|c.index| < s.height ==> ZERO_HASH !in Stored(c, s, added, removed).cached)
  }

  lemma HarmlessKeepsRight(c: CacheView, s: BlockDataBasic, added: bool, removed: Option<Hash>)
    requires Sound(c) && Reported(c, s, added, removed) && Right(c) && Harmless(c, s, added, removed)
    ensures Right(Stored(c, s, added, removed))
  {
    hide Right, Sound;
    var c' := Stored(c, s, added, removed);
    forall h: int ensures RightAt(c', h) {
      if h == s.height {
        StoredHere(c, s, added, removed);
      } else {
        assert RightAt(c, h) by {
          RightEverywhere(c, h);
        }
      }
    }
    AllRight(c');
  }

  lemma RightEverywhere(c: CacheView, h: int)
    requires Right(c)
    ensures RightAt(c, h)
  {
  }

  lemma AllRight(c: CacheView)
    requires forall h: int :: RightAt(c, h)
    ensures Right(c)
  {
  }

  lemma OnlyHarmlessKeepsRight(c: CacheView, s: BlockDataBasic, added: bool, removed: Option<Hash>)
    requires Sound(c) && Reported(c, s, added, removed) && Right(Stored(c, s, added, removed))
    ensures Harmless(c, s, added, removed)
  {
    var c' := Stored(c, s, added, removed);
    RightEverywhere(c', s.height);
    StoredHere(c, s, added, removed);
    hide Right;
    if added {
      forall h | 0 <= h < |c.index| && h != s.height ensures c.index[h] != s.hash {
        RightEverywhere(c', h);
      }
    }
    if |c.index| < s.height {
      RightEverywhere(c', |c.index|);
    }
  }

  // ---------------------------------------------------------------------------------------------
  // Whole runs

  datatype Request =
    | Store(summary: BlockDataBasic, added: bool, removed: Option<Hash>)
    | Lookup(height: int, answer: Option<BlockDataBasic>)

  ghost predicate Serves(c: CacheView, r: Request, c': CacheView) {
    match r
    case Store(s, added, removed) => Reported(c, s, added, removed) && c' == Stored(c, s, added, removed)
    case Lookup(height, answer) => answer == Found(c, height) && c' == c
  }

  /** Stores and lookups on a new cache, and what it held before each and at the end. */
  ghost predicate CacheRun(rs: seq<Request>, cs: seq<CacheView>) {
    && |cs| == |rs| + 1 && cs[0] == NOTHING
    && forall k :: 0 <= k < |rs| ==> Serves(cs[k], rs[k], cs[k + 1])
  }

  lemma {:induction false} RunIsSound(rs: seq<Request>, cs: seq<CacheView>, n: nat)
    requires CacheRun(rs, cs) && n <= |rs|
    ensures Sound(cs[n])
    decreases n
  {
    hide Sound, Stored, Reported;
    if n == 0 {
      assert Sound(NOTHING) by { NothingIsRight(); }
    } else {
      RunIsSound(rs, cs, n - 1);
      assert Serves(cs[n - 1], rs[n - 1], cs[n]);
      if rs[n - 1].Store? {
        StoredIsSound(cs[n - 1], rs[n - 1].summary, rs[n - 1].added, rs[n - 1].removed);
      }
    }
  }

  lemma NothingIsRight()
    ensures Sound(NOTHING) && Right(NOTHING)
  {
  }

  ghost predicate HarmlessRequest(c: CacheView, r: Request) {
    r.Store? ==> Harmless(c, r.summary, r.added, r.removed)
  }

  ghost predicate RightUpTo(cs: seq<CacheView>, n: nat) {
    forall k :: 0 <= k <= n < |cs| ==> Right(cs[k])
  }

  ghost predicate HarmlessUpTo(rs: seq<Request>, cs: seq<CacheView>, n: nat)
    requires |cs| == |rs| + 1
  {
    forall k :: 0 <= k < n <= |rs| ==> HarmlessRequest(cs[k], rs[k])
  }

  /** Throughout a run every lookup finds nothing or the summary last stored at its height if and only if
      every store of the run is harmless. */
  lemma {:induction false} RunIsRightExactly(rs: seq<Request>, cs: seq<CacheView>, n: nat)
    requires CacheRun(rs, cs) && n <= |rs|
    ensures RightUpTo(cs, n) <==> HarmlessUpTo(rs, cs, n)
    decreases n
  {
    hide Right, Sound, Stored, Reported, Harmless;
    if n == 0 {
      NothingIsRight();
    } else {
      RunIsRightExactly(rs, cs, n - 1);
      RunIsSound(rs, cs, n - 1);
      assert Serves(cs[n - 1], rs[n - 1], cs[n]);
      assert RightUpTo(cs, n) <==> RightUpTo(cs, n - 1) && Right(cs[n]);
      assert HarmlessUpTo(rs, cs, n) <==> HarmlessUpTo(rs, cs, n - 1) && HarmlessRequest(cs[n - 1], rs[n - 1]);
      assert RightUpTo(cs, n - 1) ==> Right(cs[n - 1]);
      StepIsRightExactly(cs[n - 1], rs[n - 1], cs[n]);
    }
  }

  lemma StepIsRightExactly(c: CacheView, r: Request, c': CacheView)
    requires Sound(c) && Serves(c, r, c')
    ensures Right(c) ==> (Right(c') <==> HarmlessRequest(c, r))
  {
    hide Right, Sound, Stored, Reported, Harmless;
    if r.Store? && Right(c) {
      if Harmless(c, r.summary, r.added, r.removed) {
        HarmlessKeepsRight(c, r.summary, r.added, r.removed);
      } else if Right(c') {
        OnlyHarmlessKeepsRight(c, r.summary, r.added, r.removed);
      }
    }
  }

  /** A hash is that of blocks at one height, and the zero hash of none. */
  ghost predicate HashesFixHeights(rs: seq<Request>) {
    forall i, j :: 0 <= i < |rs| && 0 <= j < |rs| && rs[i].Store? && rs[j].Store? ==>
      && rs[i].summary.hash != ZERO_HASH
      && (rs[i].summary.hash == rs[j].summary.hash ==> rs[i].summary.height == rs[j].summary.height)
  }

  /** Where a summary that is found or noted comes from. */
  ghost predicate StoredBefore(rs: seq<Request>, n: nat, s: BlockDataBasic) {
    exists j :: 0 <= j < n <= |rs| && rs[j].Store? && rs[j].summary == s
  }

  ghost predicate AllStoredBefore(rs: seq<Request>, n: nat, c: CacheView) {
    && (forall h <- c.stored :: StoredBefore(rs, n, c.stored[h]))
    && (forall h <- c.cached :: StoredBefore(rs, n, c.cached[h]))
  }

  lemma StoredEarlier(rs: seq<Request>, n: nat, s: BlockDataBasic)
    requires n < |rs|
    ensures StoredBefore(rs, n, s) ==> StoredBefore(rs, n + 1, s)
    ensures rs[n].Store? ==> StoredBefore(rs, n + 1, rs[n].summary)
  {
  }

  lemma {:induction false} RunStoredAll(rs: seq<Request>, cs: seq<CacheView>, n: nat)
    requires CacheRun(rs, cs) && n <= |rs|
    ensures AllStoredBefore(rs, n, cs[n])
    decreases n
  {
    if n > 0 {
      RunStoredAll(rs, cs, n - 1);
      assert Serves(cs[n - 1], rs[n - 1], cs[n]);
      hide StoredBefore;
      forall h <- cs[n].stored ensures StoredBefore(rs, n, cs[n].stored[h]) {
        StoredEarlier(rs, n - 1, cs[n].stored[h]);
      }
      forall h <- cs[n].cached ensures StoredBefore(rs, n, cs[n].cached[h]) {
        StoredEarlier(rs, n - 1, cs[n].cached[h]);
      }
    }
  }

  lemma StoredHashes(rs: seq<Request>, n: nat, s: BlockDataBasic)
    requires HashesFixHeights(rs) && StoredBefore(rs, n, s)
    ensures s.hash != ZERO_HASH
    ensures forall k :: 0 <= k < |rs| && rs[k].Store? && rs[k].summary.hash == s.hash ==> rs[k].summary.height == s.height
  {
  }

  /** Of the conditions on a store only the first is left when hashes fix heights. */
  lemma HarmlessForBlocks(rs: seq<Request>, cs: seq<CacheView>, k: nat)
    requires CacheRun(rs, cs) && k < |rs| && rs[k].Store? && HashesFixHeights(rs)
    ensures HarmlessRequest(cs[k], rs[k]) <==>
      (rs[k].summary.hash in cs[k].cached ==> cs[k].cached[rs[k].summary.hash] == rs[k].summary)
  {
    var c, s := cs[k], rs[k].summary;
    RunIsSound(rs, cs, k);
    RunStoredAll(rs, cs, k);
    forall h | 0 <= h < |c.index| && h != s.height ensures c.index[h] != s.hash {
      if h in c.stored {
        StoredHashes(rs, k, c.stored[h]);
      }
    }
    if ZERO_HASH in c.cached {
      StoredHashes(rs, k, c.cached[ZERO_HASH]);
    }
  }

  /** No store of the run offers other data for a hash that is cached. */
  ghost predicate NoOtherDataWhileCached(rs: seq<Request>, cs: seq<CacheView>)
    requires |cs| == |rs| + 1
  {
    forall k :: 0 <= k < |rs| && rs[k].Store? && rs[k].summary.hash in cs[k].cached ==>
      cs[k].cached[rs[k].summary.hash] == rs[k].summary
  }

  /** When hashes fix heights, every lookup throughout the run finds nothing or the summary last stored at
      its height if and only if no block is stored again with other data while it is cached. */
  lemma LookupsAreRightExactly(rs: seq<Request>, cs: seq<CacheView>)
    requires CacheRun(rs, cs) && HashesFixHeights(rs)
    ensures RightUpTo(cs, |rs|) <==> NoOtherDataWhileCached(rs, cs)
  {
    RunIsRightExactly(rs, cs, |rs|);
    hide Right, Harmless, Stored, Reported, HashesFixHeights;
    forall k | 0 <= k < |rs|
      ensures HarmlessRequest(cs[k], rs[k]) <==>
        (rs[k].Store? && rs[k].summary.hash in cs[k].cached ==> cs[k].cached[rs[k].summary.hash] == rs[k].summary)
    {
      if rs[k].Store? {
        HarmlessForBlocks(rs, cs, k);
      }
    }
  }

  /** Request j brought the summary into the cache, where it has been since. */
  ghost predicate EnteredAt(rs: seq<Request>, cs: seq<CacheView>, n: nat, s: BlockDataBasic, j: nat)
    requires |cs| == |rs| + 1
  {
    && j < n <= |rs| && rs[j].Store? && rs[j].summary == s && s.hash !in cs[j].cached
    && forall k :: j < k <= n ==> s.hash in cs[k].cached && cs[k].cached[s.hash] == s
  }

  /** What is cached for a hash is the summary with which the hash last came into the cache. */
  lemma {:induction false} CachedIsEntered(rs: seq<Request>, cs: seq<CacheView>, n: nat, hash: Hash) returns (j: nat)
    requires CacheRun(rs, cs) && n <= |rs| && hash in cs[n].cached
    ensures EnteredAt(rs, cs, n, cs[n].cached[hash], j)
    decreases n
  {
    RunIsSound(rs, cs, n);
    if n > 0 {
      assert Serves(cs[n - 1], rs[n - 1], cs[n]);
      if hash in cs[n - 1].cached {
        j := CachedIsEntered(rs, cs, n - 1, hash);
      } else {
        j := n - 1;
      }
    }
  }

  /** Whatever a lookup finds at the end of a run was the first to be stored under its hash since that hash
      was last absent from the cache; what was stored there under the hash later was dropped. */
  lemma LookupFindsFirst(rs: seq<Request>, cs: seq<CacheView>, height: int) returns (j: nat)
    requires CacheRun(rs, cs) && Found(cs[|rs|], height).Some?
    ensures EnteredAt(rs, cs, |rs|, Found(cs[|rs|], height).value, j)
  {
    j := CachedIsEntered(rs, cs, |rs|, cs[|rs|].index[height]);
  }
}
