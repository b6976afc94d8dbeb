/** The three chain monitors together, in the order in which ntfnhandlers.go calls them: what the SQLite
    tables hold after any stream of notices. */
module SqlRuns {
  import opened Options
  import opened StakeChain
  import opened StakeDb
  import opened StakeStore
  import opened StakeMonitor
  import opened StakeRuns
  import opened SqlTables
  import opened SqlMonitors

  datatype System = System(stake: Mon, tables: Tables, feed: Buffer, sql: Buffer)

  /** A notice, with the main chain served while the stake database handles it and the best block of the
      node when the block data is collected. */
  datatype Note = NewBlock(block: Block, main: Block, best: Block) | NewReorg(data: ReorgData)

  function StakeEvent(n: Note): Event {
    if n.NewBlock? then BlockConnected(n.block, n.main) else Reorganized(n.data)
  }

  /** Every block goes to the stake database first, then to blockdata, then to hcsqlite. */
  function HandleAll(c: Config, s: System, n: Note): (System, Status) {
    match n
    case NewReorg(d) => (System(HandleReorg(s.stake, d), s.tables, Notice(s.feed, d), Notice(s.sql, d)), Fine)
    case NewBlock(b, main, best) =>
      var (stake, first) := HandleBlock(c, s.stake, b, main);
      if first == Panicked then (s.(stake := stake), Panicked)
      else
        var (stored, feed) := StoreBlock(c, stake.db, s.tables, s.feed, b, best);
        var (tables, sql, last) := Rewrite(c, stake.db, stored, s.sql, b);
        (System(stake, tables, feed, sql), last)
  }

  function RunAll(c: Config, s: System, notes: seq<Note>): (System, Status)
    decreases |notes|
  {
    if notes == [] then (s, Fine)
    else
      var (s', status) := HandleAll(c, s, notes[0]);
      if status == Panicked then (s', Panicked) else RunAll(c, s', notes[1..])
  }

  // ---------------------------------------------------------------------------------------------
  // The queue that calls the monitors

  class CollectionQueue {
    const stake: ChainMonitor
    const feed: BlockDataMonitor
    const sql: SqlMonitor

    ghost predicate Valid()
      reads this, stake, stake.db, feed, feed.stakeDB, feed.saver, sql, sql.stakeDB, sql.db
    {
      && stake.Valid() && feed.Valid() && sql.Valid()
      && feed.stakeDB == stake.db && sql.stakeDB == stake.db && feed.saver == sql.db
    }

    ghost function State(): System
      reads this, stake, stake.db, feed, sql, sql.db
    {
      System(stake.State(), sql.db.State(), feed.State(), sql.State())
    }

    constructor (stake: ChainMonitor, feed: BlockDataMonitor, sql: SqlMonitor)
      requires stake.Valid() && feed.Valid() && sql.Valid()
      requires feed.stakeDB == stake.db && sql.stakeDB == stake.db && feed.saver == sql.db
      ensures Valid() && this.stake == stake && this.feed == feed && this.sql == sql
    {
      this.stake, this.feed, this.sql := stake, feed, sql;
    }

    /** The synchronous handlers of ProcessBlocks, for one block. The node's chain may change between them: it
        ends in main while the stake database handles the block, and in best when block data is collected. */
    method ProcessBlock(hash: Block, main: Block, best: Block) returns (status: Status)
      requires Valid()
      modifies stake, stake.db, stake.db.nodeClient, feed, sql, sql.db
      ensures Valid()
      ensures (State(), status) == HandleAll(stake.db.Conf(), old(State()), NewBlock(hash, main, best))
    {
      hide TablesOk, HandleBlock, StoreBlock, Rewrite;
      stake.db.nodeClient.best := main;
      status := stake.OnBlock(hash);
      if status == Panicked {
        return;
      }
      stake.db.nodeClient.best := best;
      feed.OnBlock(hash);
      status := sql.OnBlock(hash);
    }

    /** ProcessBlocks over the blocks queued, up to the first panic. */
    method ProcessBlocks(q: seq<Queued>) returns (status: Status)
      requires Valid()
      modifies stake, stake.db, stake.db.nodeClient, feed, sql, sql.db
      ensures Valid()
      ensures (State(), status) == RunAll(stake.db.Conf(), old(State()), Notes(q))
    {
      hide HandleAll, Valid;
      status := Fine;
      assert q[0..] == q;
      for i := 0 to |q|
        invariant Valid() && status != Panicked
        invariant RunAll(stake.db.Conf(), State(), Notes(q[i..])) == RunAll(stake.db.Conf(), old(State()), Notes(q))
      {
        assert q[i..][0] == q[i] && q[i..][1..] == q[i + 1..];
        assert Notes(q[i..])[1..] == Notes(q[i + 1..]);
        status := ProcessBlock(q[i].hash, q[i].main, q[i].best);
        if status == Panicked {
          return;
        }
      }
      status := Fine;
    }
  }

  /** A queued block, with what the node's chain is while it is processed. */
  datatype Queued = Queued(hash: Block, main: Block, best: Block)

  function Notes(q: seq<Queued>): seq<Note> {
    if q == [] then [] else [NewBlock(q[0].hash, q[0].main, q[0].best)] + Notes(q[1..])
  }

  // ---------------------------------------------------------------------------------------------
  // What the tables hold

  /** The row a block should have: its own pool info, as found by replaying its ancestry. */
  function OwnRow(c: Config, b: Block): Row
    requires b.WellFormed()
  {
    Row(b, PoolInfoOf(c.lib, Replay(b, c.maturity)))
  }

  /** One row for every block of the chain, its own, and none above the tip. */
  ghost predicate RowsOf(c: Config, table: map<int, Row>, tip: Block)
    requires tip.WellFormed()
  {
    && (forall h :: h in table <==> 0 <= h <= tip.Height())
    && (forall h :: h in table ==> table[h] == OwnRow(c, Ancestor(tip, h)))
  }

  ghost predicate Faithful(c: Config, t: Tables, tip: Block)
    requires tip.WellFormed()
  {
    && RowsOf(c, t.summaries, tip) && t.summaryHeight == tip.Height()
    && RowsOf(c, t.stakeInfo, tip) && t.stakeHeight == tip.Height()
  }

  ghost predicate BufferAgrees(m: Buffer, a: Announced) {
    m.side == a.branch && m.reorganizing == a.pending.Some? && (m.reorganizing ==> m.reorg == a.pending)
  }

  /** The chain announced so far, and the blocks whose pool info the stake database has kept: those connected
      since the process started. */
  datatype Followed = Followed(chain: Announced, kept: set<Block>)

  function FollowNote(a: Followed, n: Note): Followed {
    var chain := Follow(a.chain, StakeEvent(n));
    if n.NewReorg? then Followed(chain, a.kept)
    else if a.chain.pending.None? then
      Followed(chain, if n.block.Height() > a.chain.tip.Height() then a.kept + {n.block} else a.kept)
    else if n.block == a.chain.pending.value.newChainHead then
      Followed(chain, a.kept + (set b <- a.chain.branch) + {n.block})
    else Followed(chain, a.kept)
  }

  ghost predicate AllAgree(c: Config, s: System, a: Followed) {
    && Agrees(c, s.stake, a.chain) && Faithful(c, s.tables, a.chain.tip)
    && BufferAgrees(s.feed, a.chain) && BufferAgrees(s.sql, a.chain)
    && a.kept <= s.stake.db.pool.Keys
  }

  /** Beyond what the stake database asks for. Outside a reorganisation: the node may have moved on, but a best
      block of the height of the block announced is that block; and a block offered again is the tip or was
      connected by this process. At the end of one: the new head is at least as high as the chain. */
  ghost predicate SqlAllowed(c: Config, a: Followed, n: Note)
    requires a.chain.tip.WellFormed()
  {
    && Allowed(c, a.chain, StakeEvent(n))
    && (n.NewBlock? && a.chain.pending.None? ==>
      && (n.best.Height() == n.block.Height() ==> n.best == n.block)
      && (n.block.Height() > a.chain.tip.Height() || n.block == a.chain.tip || n.block in a.kept))
    && (n.NewBlock? && a.chain.pending.Some? && n.block == a.chain.pending.value.newChainHead ==>
      n.block.Height() >= a.chain.tip.Height())
  }

  ghost predicate AllSqlAllowed(c: Config, a: Followed, notes: seq<Note>)
    decreases |notes|
  {
    notes != [] ==>
      && a.chain.tip.WellFormed() && SqlAllowed(c, a, notes[0])
      && AllSqlAllowed(c, FollowNote(a, notes[0]), notes[1..])
  }

  // ---------------------------------------------------------------------------------------------
  // The rewrite

  /** What rewriting a branch does to a table. */
  ghost predicate Rewritten(c: Config, db: Db, before: map<int, Row>, after: map<int, Row>, base: int, side: seq<Block>) {
    && (forall h :: h in after <==> h in before || base < h <= base + |side|)
    && (forall h :: h in after ==>
      after[h] == if base < h <= base + |side| then Collected(c, db, side[h - base - 1]) else before[h])
  }

  lemma {:induction false} StoreAllRewrites(c: Config, db: Db, t: Tables, base: Block, side: seq<Block>)
    requires Branch(base, side) && side != []
    ensures var t' := StoreAll(c, db, t, side);
      var top := base.Height() + |side|;
      && Rewritten(c, db, t.summaries, t'.summaries, base.Height(), side)
      && Rewritten(c, db, t.stakeInfo, t'.stakeInfo, base.Height(), side)
      && t'.summaryHeight == (if top > t.summaryHeight then top else t.summaryHeight)
      && t'.stakeHeight == (if top > t.stakeHeight then top else t.stakeHeight)
    decreases |side|
  {
    hide Rewritten, Collected;
    var rest := side[..|side| - 1];
    BranchHeights(base, side, |side| - 1);
    if rest == [] {
      assert StoreAll(c, db, t, rest) == t;
      RewrittenNone(c, db, t.summaries, base.Height());
      RewrittenNone(c, db, t.stakeInfo, base.Height());
    } else {
      assert Branch(base, rest);
      StoreAllRewrites(c, db, t, base, rest);
    }
    var mid := StoreAll(c, db, t, rest);
    CollectedBlock(c, db, side[|side| - 1]);
    RewrittenOne(c, db, t.summaries, mid.summaries, base.Height(), side);
    RewrittenOne(c, db, t.stakeInfo, mid.stakeInfo, base.Height(), side);
  }

  lemma RewrittenNone(c: Config, db: Db, table: map<int, Row>, base: int)
    ensures Rewritten(c, db, table, table, base, [])
  {
  }

  lemma RewrittenOne(c: Config, db: Db, before: map<int, Row>, mid: map<int, Row>, base: int, side: seq<Block>)
    requires side != [] && Rewritten(c, db, before, mid, base, side[..|side| - 1])
    ensures Rewritten(c, db, before, mid[base + |side| := Collected(c, db, side[|side| - 1])], base, side)
  {
    hide Collected;
  }

  /** After the rewrite the head check fails exactly when a row was stored above the new head. */
  lemma HeadCheckExact(c: Config, db: Db, t: Tables, m: Buffer, b: Block)
    requires TablesOk(t) && m.reorganizing && m.reorg.Some?
    requires m.reorg.value.newChainHead == b && m.reorg.value.newChainHeight == b.Height()
    requires (m.side + [b])[0].Child? && Branch((m.side + [b])[0].prev, m.side + [b])
    ensures Rewrite(c, db, t, m, b).2 == Panicked <==> t.summaryHeight > m.reorg.value.newChainHeight
  {
    hide Collected;
    var side := m.side + [b];
    var base := side[0].prev;
    var t' := StoreAll(c, db, t, side);
    BranchHeights(base, side, |side| - 1);
    StoreAllRewrites(c, db, t, base, side);
    if t.summaryHeight > b.Height() {
      assert t.summaryHeight in t.summaries by { HighestIsThere(t.summaries, t.summaryHeight); }
      assert t'.summaries[t'.summaryHeight] == t.summaries[t.summaryHeight];
    } else {
      assert t'.summaries[t'.summaryHeight] == Collected(c, db, b);
      assert Collected(c, db, b).block == b by { CollectedBlock(c, db, b); }
    }
  }

  lemma HighestIsThere(table: map<int, Row>, h: int)
    requires IsHighest(table.Keys, h) && h >= 0
    ensures h in table
  {
  }

  lemma CollectedBlock(c: Config, db: Db, b: Block)
    ensures Collected(c, db, b).block == b
  {
  }

  // ---------------------------------------------------------------------------------------------
  // One notice

  lemma {:induction false} BranchAncestors(base: Block, side: seq<Block>, i: nat, h: int)
    requires Branch(base, side) && base.WellFormed() && i < |side| && 0 <= h <= side[i].Height()
    ensures side[i].Height() == base.Height() + 1 + i
    ensures Ancestor(side[i], h) == if h <= base.Height() then Ancestor(base, h) else side[h - base.Height() - 1]
    decreases i
  {
    BranchHeights(base, side, i);
    if h < side[i].Height() && i > 0 {
      BranchAncestors(base, side, i - 1, h);
    }
  }

  /** A block with its pool info kept, or the tip itself, gets its own row. */
  lemma CollectedIsOwn(c: Config, db: Db, b: Block)
    requires Ok(c, db) && (b in db.pool || b == db.tip)
    ensures b.WellFormed() && Collected(c, db, b) == OwnRow(c, b)
  {
    hide BlocksOk, PoolInfoOf, Replay;
  }

  lemma RowAfterBranch(c: Config, db: Db, before: map<int, Row>, after: map<int, Row>, tip: Block, base: Block,
                       side: seq<Block>, h: int)
    requires tip.WellFormed() && RowsOf(c, before, tip) && OnChain(base, tip) && side != [] && Branch(base, side)
    requires Rewritten(c, db, before, after, base.Height(), side) && h in after && 0 <= h <= base.Height() + |side|
    requires h > base.Height() ==>
      var s := side[h - base.Height() - 1]; s.WellFormed() && Collected(c, db, s) == OwnRow(c, s)
    ensures side[|side| - 1].Height() == base.Height() + |side|
    ensures after[h] == OwnRow(c, Ancestor(side[|side| - 1], h))
  {
    hide OwnRow, Collected;
    BranchHeights(base, side, |side| - 1);
    BranchAncestors(base, side, |side| - 1, h);
    if h <= base.Height() {
      assert after[h] == before[h];
      AncestorTwice(tip, base.Height(), h);
    } else {
      hide RowsOf, Ancestor, OnChain, Branch;
    }
  }

  lemma RewrittenKeys(c: Config, db: Db, before: map<int, Row>, after: map<int, Row>, base: int, top: int, side: seq<Block>)
    requires Rewritten(c, db, before, after, base, side) && 0 <= base <= top <= base + |side|
    requires forall h :: h in before <==> 0 <= h <= top
    ensures forall h :: h in after <==> 0 <= h <= base + |side|
  {
    hide Collected;
  }

  lemma RowsAfterBranch(c: Config, db: Db, before: map<int, Row>, after: map<int, Row>, tip: Block, side: seq<Block>)
    requires tip.WellFormed() && RowsOf(c, before, tip) && Ok(c, db)
    requires side != [] && side[0].Child? && side[0].WellFormed() && OnChain(side[0].prev, tip)
    requires Branch(side[0].prev, side) && side[|side| - 1].Height() >= tip.Height()
    requires forall s <- side :: s in db.pool
    requires Rewritten(c, db, before, after, side[0].prev.Height(), side)
    ensures RowsOf(c, after, side[|side| - 1])
  {
    hide Ok, OwnRow, Collected, Ancestor;
    var base, head := side[0].prev, side[|side| - 1];
    BranchHeights(base, side, |side| - 1);
    RewrittenKeys(c, db, before, after, base.Height(), tip.Height(), side);
    hide Rewritten;
    forall h | h in after ensures after[h] == OwnRow(c, Ancestor(head, h)) {
      if h > base.Height() {
        var s := side[h - base.Height() - 1];
        assert s in side;
        CollectedIsOwn(c, db, s);
      }
      RowAfterBranch(c, db, before, after, tip, base, side, h);
    }
  }

  lemma FaithfulAfterBranch(c: Config, db: Db, t: Tables, tip: Block, side: seq<Block>)
    requires tip.WellFormed() && Faithful(c, t, tip) && Ok(c, db)
    requires side != [] && side[0].Child? && side[0].WellFormed() && OnChain(side[0].prev, tip)
    requires Branch(side[0].prev, side) && side[|side| - 1].Height() >= tip.Height()
    requires forall s <- side :: s in db.pool
    ensures Faithful(c, StoreAll(c, db, t, side), side[|side| - 1])
  {
    hide RowsOf, Rewritten, OnChain, Ok;
    var base := side[0].prev;
    var t' := StoreAll(c, db, t, side);
    BranchHeights(base, side, |side| - 1);
    StoreAllRewrites(c, db, t, base, side);
    RowsAfterBranch(c, db, t.summaries, t'.summaries, tip, side);
    RowsAfterBranch(c, db, t.stakeInfo, t'.stakeInfo, tip, side);
  }

  lemma RowsAfterChild(c: Config, table: map<int, Row>, b: Block)
    requires b.Child? && b.WellFormed() && RowsOf(c, table, b.prev)
    ensures RowsOf(c, table[b.Height() := OwnRow(c, b)], b)
  {
    hide OwnRow;
  }

  lemma RowsAfterOld(c: Config, table: map<int, Row>, b: Block, tip: Block)
    requires tip.WellFormed() && RowsOf(c, table, tip) && OnChain(b, tip)
    ensures b.WellFormed() && table[b.Height() := OwnRow(c, b)] == table
  {
    hide OwnRow;
    assert b.Height() in table;
  }

  /** The head of a branch: the tables follow the switch, and the head check passes. */
  lemma HeadNote(c: Config, s: System, a: Followed, n: Note)
    requires c.maturity >= 1 && AllAgree(c, s, a) && SqlAllowed(c, a, n)
    requires n.NewBlock? && a.chain.pending.Some? && n.block == a.chain.pending.value.newChainHead
    ensures var (s', status) := HandleAll(c, s, n);
      status == Fine && AllAgree(c, s', FollowNote(a, n))
  {
    hide Ok, OnChain, Serves, Connect, Faithful, Switch, TablesOk, OwnRow, Ancestor, Replay, BlocksOk, PoolOk;
    HeadStep(c, s.stake, a.chain, n.block, n.main);
    var side := s.stake.side + [n.block];
    var db := HandleBlock(c, s.stake, n.block, n.main).0.db;
    assert db == Switch(c, s.stake.db, side, n.main).db;
    SwitchPool(c, s.stake.db, side, n.main);
    HeadBranch(c, s, a, n);
    FaithfulAfterBranch(c, db, s.tables, a.chain.tip, side);
    TablesOfFaithful(c, s.tables, a.chain.tip);
    HeadCheckExact(c, db, s.tables, s.sql, n.block);
  }

  lemma SwitchPool(c: Config, db: Db, side: seq<Block>, main: Block)
    requires Switch(c, db, side, main).status == Fine
    ensures forall s :: s in side || s in db.pool ==> s in Switch(c, db, side, main).db.pool
  {
    hide Connect;
    DisconnectKeepsPool(db, db.best.Height() - (side[0].Height() - 1));
    var back := DisconnectN(db, db.best.Height() - (side[0].Height() - 1)).0;
    ConnectAllPool(c, back, side, main);
  }

  lemma {:induction false} DisconnectKeepsPool(db: Db, count: int)
    ensures DisconnectN(db, count).0.pool == db.pool
    decreases if count < 0 then 0 else count
  {
    if count > 0 && Disconnect(db).1 == Fine {
      DisconnectKeepsPool(Disconnect(db).0, count - 1);
    }
  }

  lemma HeadBranch(c: Config, s: System, a: Followed, n: Note)
    requires AllAgree(c, s, a) && SqlAllowed(c, a, n)
    requires n.NewBlock? && a.chain.pending.Some? && n.block == a.chain.pending.value.newChainHead
    ensures var side := s.stake.side + [n.block];
      && side[0].Child? && side[0].WellFormed() && OnChain(side[0].prev, a.chain.tip) && Branch(side[0].prev, side)
      && a.chain.tip.WellFormed()
  {
    hide OnChain, Serves, Faithful, BlocksOk, PoolOk, Replay;
  }

  lemma TablesOfFaithful(c: Config, t: Tables, tip: Block)
    requires tip.WellFormed() && Faithful(c, t, tip)
    ensures TablesOk(t) && t.summaryHeight == tip.Height()
  {
    hide PoolInfoOf, Replay;
    assert tip.Height() in t.summaries && tip.Height() in t.stakeInfo;
  }

  lemma FaithfulAfterChild(c: Config, t: Tables, b: Block)
    requires b.Child? && b.WellFormed() && Faithful(c, t, b.prev)
    ensures Faithful(c, StoreBoth(t, OwnRow(c, b)), b)
  {
    hide RowsOf, PoolInfoOf, Replay;
    RowsAfterChild(c, t.summaries, b);
    RowsAfterChild(c, t.stakeInfo, b);
  }

  lemma FaithfulAfterOld(c: Config, t: Tables, b: Block, tip: Block)
    requires tip.WellFormed() && Faithful(c, t, tip) && OnChain(b, tip)
    ensures b.WellFormed() && StoreBoth(t, OwnRow(c, b)) == t
  {
    hide RowsOf, PoolInfoOf, Replay, Ancestor;
    RowsAfterOld(c, t.summaries, b, tip);
    RowsAfterOld(c, t.stakeInfo, b, tip);
  }

  /** A child of the tip has its pool info kept once connected. */
  lemma ConnectedPool(c: Config, db: Db, b: Block, main: Block)
    ensures Connect(c, db, b, main).1 == Fine || b in db.pool ==> b in Connect(c, db, b, main).0.pool
    ensures db.pool.Keys <= Connect(c, db, b, main).0.pool.Keys
  {
  }

  /** A block of the chain that is offered again after a restart, which emptied the pool info cache, gets the
      pool info of the tip. The tables stay faithful if and only if that happens to be its own. */
  lemma OfferedAgain(c: Config, db: Db, t: Tables, b: Block)
    requires Ok(c, db) && Faithful(c, t, db.tip) && OnChain(b, db.tip)
    ensures b.WellFormed()
    ensures b !in db.pool ==> Collected(c, db, b) == Row(b, PoolInfoOf(c.lib, Replay(db.tip, c.maturity)))
    ensures Faithful(c, StoreBoth(t, Collected(c, db, b)), db.tip) <==> (
      b in db.pool || PoolInfoOf(c.lib, Replay(db.tip, c.maturity)) == PoolInfoOf(c.lib, Replay(b, c.maturity)))
  {
    hide BlocksOk, PoolInfoOf, Replay;
    FaithfulAfterOld(c, t, b, db.tip);
    var t' := StoreBoth(t, Collected(c, db, b));
    CollectedBlock(c, db, b);
    if b in db.pool {
      CollectedIsOwn(c, db, b);
    } else {
      assert t'.summaries[b.Height()] == Collected(c, db, b);
      assert Ancestor(db.tip, b.Height()) == b;
    }
  }

  /** Outside a reorganisation: the row of the block is stored, with its own pool info. */
  lemma BlockNote(c: Config, s: System, a: Followed, n: Note)
    requires c.maturity >= 1 && AllAgree(c, s, a) && SqlAllowed(c, a, n)
    requires n.NewBlock? && a.chain.pending.None?
    ensures var (s', status) := HandleAll(c, s, n);
      status == Fine && AllAgree(c, s', FollowNote(a, n))
  {
    var b := n.block;
    BlockStep(c, s.stake, a.chain, b, n.main);
    HeightsArePositive(b);
    hide Serves, Connect, Faithful, Ancestor, Replay, BlocksOk, PoolOk, PoolInfoOf;
    var db := HandleBlock(c, s.stake, b, n.main).0.db;
    assert db == Connect(c, s.stake.db, b, n.main).0;
    if b.Child? && b.prev == a.chain.tip {
      ConnectChild(c, s.stake.db, b, n.main);
      ConnectedPool(c, s.stake.db, b, n.main);
      CollectedIsOwn(c, db, b);
      FaithfulAfterChild(c, s.tables, b);
    } else {
      ConnectedPool(c, s.stake.db, b, n.main);
      CollectedIsOwn(c, db, b);
      FaithfulAfterOld(c, s.tables, b, a.chain.tip);
    }
  }

  /** A child of the tip leaves everything in agreement if and only if the node's best block, should it be of
      the same height, is that child: the collector then asks for the best block, whichever it is. */
  lemma BlockNoteExact(c: Config, s: System, a: Followed, n: Note)
    requires c.maturity >= 1 && AllAgree(c, s, a) && Allowed(c, a.chain, StakeEvent(n))
    requires n.NewBlock? && a.chain.pending.None? && n.block.Child? && n.block.prev == a.chain.tip
    ensures AllAgree(c, HandleAll(c, s, n).0, FollowNote(a, n)) <==> (
      n.best.Height() == n.block.Height() ==> n.best == n.block)
  {
    HeightsArePositive(n.block);
    if n.best.Height() == n.block.Height() ==> n.best == n.block {
      hide AllAgree, Allowed, HandleAll, FollowNote;
      assert SqlAllowed(c, a, n);
      BlockNote(c, s, a, n);
    } else {
      BestStored(c, s, a, n);
    }
  }

  /** The row of another best block of the same height. */
  lemma BestStored(c: Config, s: System, a: Followed, n: Note)
    requires c.maturity >= 1 && AllAgree(c, s, a) && Allowed(c, a.chain, StakeEvent(n))
    requires n.NewBlock? && a.chain.pending.None? && n.block.Child? && n.block.prev == a.chain.tip
    requires n.best.Height() == n.block.Height() && n.best != n.block
    ensures !AllAgree(c, HandleAll(c, s, n).0, FollowNote(a, n))
  {
    BlockStep(c, s.stake, a.chain, n.block, n.main);
    hide Ok, Serves, PoolInfoOf, HandleBlock, OnChain, Allowed, Faithful, TablesOk;
    var s' := HandleAll(c, s, n).0;
    assert n.block.Height() in s'.tables.summaries && s'.tables.summaries[n.block.Height()].block == n.best;
    assert FollowNote(a, n).chain.tip == n.block;
    RowIsOwn(c, s', FollowNote(a, n));
  }

  lemma RowIsOwn(c: Config, s: System, a: Followed)
    requires a.chain.tip.Height() in s.tables.summaries
    requires s.tables.summaries[a.chain.tip.Height()].block != a.chain.tip
    ensures !AllAgree(c, s, a)
  {
    hide Ok, PoolInfoOf, Replay;
  }

  /** Within a branch nothing is stored. */
  lemma BufferNote(c: Config, s: System, a: Followed, n: Note)
    requires AllAgree(c, s, a) && SqlAllowed(c, a, n)
    requires n.NewBlock? && a.chain.pending.Some? && n.block != a.chain.pending.value.newChainHead
    ensures var (s', status) := HandleAll(c, s, n);
      status == Fine && s'.tables == s.tables && AllAgree(c, s', FollowNote(a, n))
  {
    BufferStep(c, s.stake, a.chain, n.block, n.main);
    hide Ok, OnChain, Serves, Connect, Faithful, Switch, Allowed;
  }

  lemma OneNote(c: Config, s: System, a: Followed, n: Note)
    requires c.maturity >= 1 && AllAgree(c, s, a) && SqlAllowed(c, a, n)
    ensures var (s', status) := HandleAll(c, s, n);
      status == Fine && AllAgree(c, s', FollowNote(a, n))
  {
    if n.NewReorg? {
      hide Ok, OnChain, Serves, Faithful;
    } else if a.chain.pending.None? {
      BlockNote(c, s, a, n);
    } else if n.block == a.chain.pending.value.newChainHead {
      HeadNote(c, s, a, n);
    } else {
      BufferNote(c, s, a, n);
    }
  }

  // ---------------------------------------------------------------------------------------------
  // Whole runs

  function FollowNotes(a: Followed, notes: seq<Note>): Followed
    decreases |notes|
  {
    if notes == [] then a else FollowNotes(FollowNote(a, notes[0]), notes[1..])
  }

  /** Whatever is announced, no monitor panics, and the tables hold one row for every block of the announced
      chain, each with the pool info of its own ancestry, and no row besides. */
  lemma {:induction false} TablesFollow(c: Config, s: System, a: Followed, notes: seq<Note>)
    requires c.maturity >= 1 && AllAgree(c, s, a) && AllSqlAllowed(c, a, notes)
    ensures var (s', status) := RunAll(c, s, notes);
      status == Fine && AllAgree(c, s', FollowNotes(a, notes))
    decreases |notes|
  {
    hide AllAgree, SqlAllowed, HandleAll, FollowNote;
    if notes != [] {
      OneNote(c, s, a, notes[0]);
      TablesFollow(c, HandleAll(c, s, notes[0]).0, FollowNote(a, notes[0]), notes[1..]);
    }
  }
}
