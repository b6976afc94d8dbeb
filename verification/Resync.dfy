/** resyncDBWithPoolValue of db/hcsqlite/sync.go: bringing the stake database and the two SQLite tables to the
    height of the node. */
module Resync {
  import opened Options
  import opened StakeChain
  import opened StakeDb
  import opened StakeStore
  import opened StakeMonitor
  import opened StakeRuns
  import opened SqlTables
  import opened SqlMonitors
  import opened SqlRuns

  /** How a run ends. Stopped is the process being killed between connecting a block and storing its rows. */
  datatype Outcome =
    | Synced(height: int)
    | Cancelled(height: int)
    | Refused
    | Stopped(height: int)
    | Crashed

  // ---------------------------------------------------------------------------------------------
  // The node while the resync runs

  ghost predicate NeverDrops(best: Block, future: seq<Block>) {
    && best.WellFormed()
    && (forall i :: 0 <= i < |future| ==> future[i].WellFormed())
    && (forall i :: 0 <= i < |future| ==> best.Height() <= future[i].Height())
    && (forall i, j :: 0 <= i < j < |future| ==> future[i].Height() <= future[j].Height())
  }

  /** The node's chain only grows, up to final. */
  ghost predicate GrowsTo(best: Block, future: seq<Block>, final: Block) {
    && final.WellFormed() && OnChain(best, final)
    && forall i :: 0 <= i < |future| ==> OnChain(future[i], final)
  }

  /** The node, and the tips that its main chain will have at the calls of GetBestBlock to come. */
  class ChainServer {
    const client: NodeClient
    var future: seq<Block>

    constructor (client: NodeClient, future: seq<Block>)
      ensures this.client == client && this.future == future
    {
      this.client, this.future := client, future;
    }

    /** The height of the best block, the chain moving on first. */
    method GetBestBlock(ghost final: Block) returns (height: int)
      requires NeverDrops(client.best, future)
      modifies this`future, client
      ensures NeverDrops(client.best, future) && height == client.best.Height() >= old(client.best.Height())
      ensures |future| < old(|future|) || (future == old(future) && client.best == old(client.best))
      ensures old(GrowsTo(client.best, future, final)) ==> GrowsTo(client.best, future, final)
    {
      if future != [] {
        assert GrowsTo(client.best, future, final) ==> OnChain(future[0], final);
        client.best := future[0];
        future := future[1..];
      }
      height := client.best.Height();
    }
  }

  // ---------------------------------------------------------------------------------------------
  // One round of the catch-up loop, on values

  /** The heights found at the start of the run, the stake node's after rewinding. */
  datatype Heights = Heights(node: int, summary: int, stake: int)

  function Max(a: int, b: int): int {
    if a >= b then a else b
  }

  /** Block i is connected if the stake node has not got it ... */
  function RoundDb(c: Config, db: Db, b: Block, at: Heights, main: Block): Db {
    if b.Height() > at.node then Connect(c, db, b, main).0 else db
  }

  /** ... and stored in the tables that lack it. */
  function RoundTables(t: Tables, row: Row, at: Heights): Tables {
    var i := row.block.Height();
    var t1 := if i > at.summary then StoreSummary(t, row) else t;
    if i > at.stake then StoreStakeInfo(t1, row) else t1
  }

  /** The recorded tip and the stake node are at the same height. */
  ghost predicate Level(db: Db) {
    db.tip.WellFormed() && db.tip.Height() == db.best.Height()
  }

  ghost predicate GapFree(t: Tables) {
    && t.summaryHeight >= -1 && t.stakeHeight >= -1
    && (forall h :: h in t.summaries <==> 0 <= h <= t.summaryHeight)
    && (forall h :: h in t.stakeInfo <==> 0 <= h <= t.stakeHeight)
  }

  ghost predicate TablesReached(t: Tables, i: int, at: Heights) {
    GapFree(t) && t.summaryHeight == Max(at.summary, i - 1) && t.stakeHeight == Max(at.stake, i - 1)
  }

  /** Every height below i has been dealt with. */
  ghost predicate Reached(db: Db, t: Tables, i: int, at: Heights) {
    Level(db) && db.best.Height() == Max(0, i - 1) && TablesReached(t, i, at)
  }

  /** Everything stored is of the chain that the node grows to, with its own pool info. */
  ghost predicate OnFinal(c: Config, db: Db, t: Tables, final: Block) {
    && final.WellFormed() && Ok(c, db) && OnChain(db.tip, final)
    && RowsOn(c, t.summaries, final) && RowsOn(c, t.stakeInfo, final)
  }

  ghost predicate RowsOn(c: Config, table: map<int, Row>, final: Block)
    requires final.WellFormed()
  {
    forall h :: h in table ==> 0 <= h <= final.Height() && table[h] == OwnRow(c, Ancestor(final, h))
  }

  /** A run starts behind the lowest of the stores. */
  ghost predicate Lag(start: int, at: Heights) {
    start >= -1 && at.node == Max(0, start) && at.summary >= start && at.stake >= start
  }

  lemma ConnectNext(c: Config, db: Db, b: Block, main: Block)
    requires Level(db) && b.WellFormed() && main.WellFormed()
    requires db.best.Height() + 1 == b.Height() <= main.Height()
    ensures var (db', status) := Connect(c, db, b, main);
      status == Fine && Level(db') && db'.best.Height() == b.Height()
  {
    hide PoolInfoOf, BlocksAfter, Served, Block.WellFormed;
  }

  lemma StoreNext(t: Tables, row: Row, at: Heights, start: int)
    requires Lag(start, at) && row.block.Height() > start && TablesReached(t, row.block.Height(), at)
    ensures TablesReached(RoundTables(t, row, at), row.block.Height() + 1, at)
  {
  }

  lemma ConnectOnFinal(c: Config, db: Db, i: int, at: Heights, main: Block, start: int, final: Block)
    requires c.maturity >= 1
    requires main.WellFormed() && 0 <= i <= main.Height() && Lag(start, at) && i > start
    requires final.WellFormed() && OnChain(main, final)
    requires Ok(c, db) && OnChain(db.tip, final) && db.tip.Height() == Max(0, i - 1)
    ensures var b := Ancestor(main, i);
      var db' := RoundDb(c, db, b, at, main);
      b == Ancestor(final, i) && Ok(c, db') && db'.tip == b && Collected(c, db', b) == OwnRow(c, b)
  {
    var b := Ancestor(main, i);
    AncestorTwice(final, main.Height(), i);
    var db' := RoundDb(c, db, b, at, main);
    if i > at.node {
      AncestorTwice(final, i, i - 1);
      AncestorTwice(main, i, i - 1);
      HeightsArePositive(b);
      hide BlocksOk, PoolOk, PoolInfoOf, Replay;
      assert b.prev == db.tip && OnChain(b.prev, main);
      hide Ancestor;
      MainChainServes(c, main, b);
      ConnectChild(c, db, b, main);
      ConnectedPool(c, db, b, main);
    }
    hide OwnRow, Collected, Connect, BlocksOk, PoolOk;
    CollectedIsOwn(c, db', b);
  }

  lemma RowsOnStore(c: Config, table: map<int, Row>, row: Row, final: Block)
    requires final.WellFormed() && RowsOn(c, table, final)
    requires row.block.Height() <= final.Height() && row == OwnRow(c, Ancestor(final, row.block.Height()))
    ensures RowsOn(c, table[row.block.Height() := row], final)
  {
    hide OwnRow, Ancestor, Block.WellFormed;
  }

  lemma StoreOnFinal(c: Config, t: Tables, row: Row, at: Heights, final: Block)
    requires final.WellFormed() && RowsOn(c, t.summaries, final) && RowsOn(c, t.stakeInfo, final)
    requires row.block.Height() <= final.Height() && row == OwnRow(c, Ancestor(final, row.block.Height()))
    ensures var t' := RoundTables(t, row, at); RowsOn(c, t'.summaries, final) && RowsOn(c, t'.stakeInfo, final)
  {
    hide OwnRow, Ancestor, RowsOn, Block.WellFormed;
    RowsOnStore(c, t.summaries, row, final);
    RowsOnStore(c, t.stakeInfo, row, final);
  }

  // ---------------------------------------------------------------------------------------------
  // Rewinding

  ghost predicate DbOnFinal(c: Config, db: Db, final: Block) {
    final.WellFormed() && Ok(c, db) && OnChain(db.tip, final)
  }

  lemma DisconnectLevel(db: Db)
    requires Level(db) && db.best.Height() > 0
    ensures var (db', status) := Disconnect(db);
      status == Fine && Level(db') && db'.best.Height() == db.best.Height() - 1
  {
    HeightsArePositive(db.tip);
  }

  lemma DisconnectOnFinal(c: Config, db: Db, final: Block)
    requires DbOnFinal(c, db, final) && db.best.Height() > 0
    ensures DbOnFinal(c, Disconnect(db).0, final)
  {
    hide BlocksOk, PoolOk;
    DisconnectBack(c, db, 1);
    var db' := Disconnect(db).0;
    assert DisconnectN(db', 0) == (db', Fine);
    AncestorTwice(final, db.tip.Height(), db.tip.Height() - 1);
  }

  // ---------------------------------------------------------------------------------------------
  // The resync

  /** What the function asks of the heights before it demands a new stake database. */
  predicate Refuses(node: int, summary: int, stake: int) {
    var start := if summary < stake then summary else stake;
    node > start && node > 0 && (start < 0 || node > 2 * start)
  }

  function Lowest(node: int, summary: int, stake: int): int {
    if node < summary && node < stake then node else if summary < stake then summary else stake
  }

  /** It refuses to roll back a stake database to an empty table, or when more than half of its blocks would have
      to go. */
  lemma RefusesExactly(node: nat, summary: int, stake: int)
    requires summary >= -1 && stake >= -1
    ensures var start := Lowest(node, summary, stake);
      Refuses(node, summary, stake) <==> node > 0 && (summary == -1 || stake == -1 || node - start > start)
  {
  }

  /** How often the stake node is rolled back at the start. */
  function Rewinds(node: int, summary: int, stake: int): int {
    var start := Lowest(node, summary, stake);
    if start < 0 then 0 else node - start
  }

  /** The rows of a table are still there. */
  ghost predicate Extends(t: Tables, t': Tables) {
    && (forall h :: h in t.summaries ==> h in t'.summaries && t'.summaries[h] == t.summaries[h])
    && (forall h :: h in t.stakeInfo ==> h in t'.stakeInfo && t'.stakeInfo[h] == t.stakeInfo[h])
  }

  lemma ExtendsItself(t: Tables)
    ensures Extends(t, t)
  {
  }

  lemma StoreExtends(first: Tables, t: Tables, row: Row, at: Heights)
    requires GapFree(first) && first.summaryHeight == at.summary && first.stakeHeight == at.stake && Extends(first, t)
    ensures Extends(first, RoundTables(t, row, at))
  {
  }

  class WiredDb {
    const chain: ChainServer
    const sDB: StakeDatabase
    const sql: SqlDb

    ghost predicate Valid()
      reads this, chain, chain.client, sDB, sql
    {
      && chain.client == sDB.nodeClient && NeverDrops(chain.client.best, chain.future)
      && sDB.Priced() && Level(sDB.State())
      && sql.Valid() && GapFree(sql.State())
    }

    ghost predicate AllOnFinal(final: Block)
      reads this, chain, chain.client, sDB, sql
    {
      OnFinal(sDB.Conf(), sDB.State(), sql.State(), final) && GrowsTo(chain.client.best, chain.future, final)
    }

    constructor (chain: ChainServer, sDB: StakeDatabase, sql: SqlDb)
      requires chain.client == sDB.nodeClient && NeverDrops(chain.client.best, chain.future)
      requires sDB.Priced() && Level(sDB.State()) && sql.Valid() && GapFree(sql.State())
      ensures Valid() && this.chain == chain && this.sDB == sDB && this.sql == sql
    {
      this.chain, this.sDB, this.sql := chain, sDB, sql;
    }

    /** The rewind loop. quit counts the checks that pass before the quit channel is closed. */
    method Rewind(startHeight: int, quit: Option<nat>, ghost final: Block)
      returns (status: Status, cancelled: bool, quit': Option<nat>)
      requires Level(sDB.State()) && 0 <= startHeight <= sDB.bestNode.Height()
      modifies sDB`bestNode, sDB`stakeDB
      ensures Level(sDB.State()) && startHeight <= sDB.bestNode.Height() <= old(sDB.bestNode.Height())
      ensures status == Fine && (quit.None? ==> !cancelled && quit'.None?)
      ensures !cancelled ==> sDB.bestNode.Height() == startHeight
      ensures cancelled ==> quit == Some(old(sDB.bestNode.Height()) - sDB.bestNode.Height()) && sDB.bestNode.Height() > startHeight
      ensures !cancelled && quit.Some? ==>
        quit.value >= old(sDB.bestNode.Height()) - startHeight && quit' == Some(quit.value - (old(sDB.bestNode.Height()) - startHeight))
      ensures old(DbOnFinal(sDB.Conf(), sDB.State(), final)) ==> DbOnFinal(sDB.Conf(), sDB.State(), final)
    {
      hide Level, DbOnFinal, Disconnect;
      quit' := quit;
      status := Fine;
      var bestNodeHeight: int := sDB.Height();
      while bestNodeHeight > startHeight
        invariant Level(sDB.State()) && status == Fine && (quit.None? ==> quit'.None?)
        invariant startHeight <= bestNodeHeight == sDB.bestNode.Height() <= old(sDB.bestNode.Height())
        invariant quit.Some? ==> quit'.Some? && quit'.value == quit.value - (old(sDB.bestNode.Height()) - bestNodeHeight)
        invariant old(DbOnFinal(sDB.Conf(), sDB.State(), final)) ==> DbOnFinal(sDB.Conf(), sDB.State(), final)
        decreases bestNodeHeight - startHeight
      {
        if quit' == Some(0) {
          return Fine, true, quit';
        } else if quit'.Some? {
          quit' := Some(quit'.value - 1);
        }
        DisconnectLevel(sDB.State());
        if DbOnFinal(sDB.Conf(), sDB.State(), final) {
          DisconnectOnFinal(sDB.Conf(), sDB.State(), final);
        }
        status := sDB.DisconnectBlock();
        bestNodeHeight := sDB.Height();
      }
      cancelled := false;
    }

    /** One round of the catch-up loop. */
    method CatchUp(i: int, at: Heights, dieAt: Option<int>) returns (end: Outcome)
      requires sDB.Priced() && sql.Valid() && sDB.nodeClient.best.WellFormed()
      requires 0 <= i <= sDB.nodeClient.best.Height()
      requires i > at.node ==> i == sDB.bestNode.Height() + 1
      requires i > at.node ==>
        Connect(sDB.Conf(), sDB.State(), Ancestor(sDB.nodeClient.best, i), sDB.nodeClient.best).1 == Fine
      modifies sDB, sql
      ensures sDB.Priced() && sql.Valid()
      ensures end == if i > at.node && dieAt == Some(i) then Stopped(i) else Synced(i)
      ensures sDB.State() ==
        RoundDb(sDB.Conf(), old(sDB.State()), Ancestor(sDB.nodeClient.best, i), at, sDB.nodeClient.best)
      ensures end.Stopped? ==> sql.State() == old(sql.State())
      ensures end.Synced? ==> sql.State() == RoundTables(old(sql.State()),
        Collected(sDB.Conf(), sDB.State(), Ancestor(sDB.nodeClient.best, i)), at)
    {
      hide TablesOk, Connect, PoolInfoOf, Block.WellFormed;
      var block := Ancestor(sDB.nodeClient.best, i);
      if i > at.node {
        var height := sDB.Height();
        if i != height + 1 {
          return Crashed;
        }
        var status := sDB.ConnectBlock(block);
        if status != Fine {
          return Crashed;
        }
        if dieAt == Some(i) {
          return Stopped(i);
        }
      }
      var tpi := sDB.PoolInfo(block);
      if tpi.None? {
        var ticketPoolInfo, _ := sDB.PoolInfoBest();
        tpi := Some(ticketPoolInfo);
      }
      var blockSummary := Row(block, tpi.value);
      if i > at.summary {
        sql.StoreBlockSummary(blockSummary);
      }
      if i > at.stake {
        sql.StoreStakeInfoExtended(blockSummary);
      }
      end := Synced(i);
    }

    /** One round, and what it keeps. first are the tables as the run found them. */
    method CatchUpKeeping(i: int, at: Heights, dieAt: Option<int>, ghost start: int, ghost first: Tables, ghost final: Block)
      returns (end: Outcome)
      requires Valid() && sDB.maturity >= 1 && Lag(start, at) && start < i <= chain.client.best.Height() && i >= 0
      requires Reached(sDB.State(), sql.State(), i, at) && Extends(first, sql.State())
      requires GapFree(first) && first.summaryHeight == at.summary && first.stakeHeight == at.stake
      modifies sDB, sql
      ensures Valid() && end == (if i > at.node && dieAt == Some(i) then Stopped(i) else Synced(i))
      ensures end.Synced? ==> Reached(sDB.State(), sql.State(), i + 1, at)
      ensures end.Stopped? ==> sDB.bestNode.Height() == i && TablesReached(sql.State(), i, at)
      ensures Extends(first, sql.State())
      ensures old(AllOnFinal(final)) ==> AllOnFinal(final)
    {
      hide TablesOk, Connect, PoolInfoOf, Block.WellFormed, Reached, TablesReached, GapFree, OnFinal,
           RoundDb, RoundTables, Collected, Ancestor, Extends;
      RoundLemma(sDB.Conf(), sDB.State(), sql.State(), i, at, chain.client.best, start, final);
      ghost var before := sql.State();
      end := CatchUp(i, at, dieAt);
      StoreExtends(first, before, Collected(sDB.Conf(), sDB.State(), Ancestor(chain.client.best, i)), at);
    }

    /** The catch-up loop, from the block after start. */
    method CatchUpLoop(start: int, firstHeight: int, at: Heights, quit: Option<nat>, dieAt: Option<int>, ghost final: Block)
      returns (end: Outcome)
      requires Valid() && sDB.maturity >= 1 && Lag(start, at) && start < firstHeight == chain.client.best.Height()
      requires Reached(sDB.State(), sql.State(), start + 1, at)
      requires sql.dbSummaryHeight == at.summary && sql.dbStakeInfoHeight == at.stake
      modifies chain`future, chain.client, sDB, sql
      ensures Valid() && (end.Synced? || end.Cancelled? || end.Stopped?)
      ensures end.Synced? ==> end.height == chain.client.best.Height() >= firstHeight
      ensures end.Synced? || end.Cancelled? ==> Reached(sDB.State(), sql.State(), end.height + 1, at)
      ensures end.Synced? || end.Cancelled? ==> end.height >= start
      ensures end.Cancelled? ==> quit == Some(end.height - start)
      ensures quit.Some? && !end.Cancelled? ==> quit.value >= end.height - start
      ensures end.Synced? ==> dieAt.None? || dieAt.value <= at.node || dieAt.value > end.height
      ensures Extends(old(sql.State()), sql.State())
      ensures chain.client.best.Height() >= firstHeight
      ensures end.Stopped? ==> dieAt == Some(end.height) && end.height > start
      ensures end.Stopped? ==> 1 <= end.height <= chain.client.best.Height()
      ensures end.Stopped? ==> sDB.bestNode.Height() == end.height && TablesReached(sql.State(), end.height, at)
      ensures old(AllOnFinal(final)) ==> AllOnFinal(final)
    {
      hide TablesOk, Block.WellFormed, Reached, TablesReached, GapFree, OnFinal, Extends, Level;
      var polls := quit;
      ExtendsItself(sql.State());
      var i, height := start + 1, firstHeight;
      while i <= height
        invariant Valid() && height == chain.client.best.Height() >= firstHeight && start < i <= height + 1
        invariant Reached(sDB.State(), sql.State(), i, at) && (quit.None? ==> polls.None?)
        invariant quit.Some? ==> polls.Some? && polls.value == quit.value - (i - start - 1)
        invariant dieAt.None? || dieAt.value <= at.node || dieAt.value >= i
        invariant Extends(old(sql.State()), sql.State())
        invariant old(AllOnFinal(final)) ==> AllOnFinal(final)
        decreases |chain.future|, height - i
      {
        if polls == Some(0) {
          return Cancelled(i - 1);
        } else if polls.Some? {
          polls := Some(polls.value - 1);
        }
        end := CatchUpKeeping(i, at, dieAt, start, old(sql.State()), final);
        if end.Stopped? {
          return;
        }
        i := i + 1;
        height := chain.GetBestBlock(final);
      }
      end := Synced(height);
    }

    /** resyncDBWithPoolValue. quit counts the checks that pass before the quit channel is closed, dieAt is the
        height at which the process is killed, between connecting and storing, if any. */
    method ResyncDBWithPoolValue(quit: Option<nat>, dieAt: Option<int>, ghost final: Block) returns (end: Outcome)
      requires Valid() && sDB.maturity >= 1
      modifies chain`future, chain.client, sDB, sql
      ensures Valid() && end != Crashed
      ensures end == Refused <==> old(Refuses(sDB.bestNode.Height(), sql.dbSummaryHeight, sql.dbStakeInfoHeight))
      ensures end == Refused ==> sDB.State() == old(sDB.State()) && sql.State() == old(sql.State())
      ensures end.Cancelled? ==> quit.Some?
      ensures end.Cancelled? ==>
        var start := old(Lowest(sDB.bestNode.Height(), sql.dbSummaryHeight, sql.dbStakeInfoHeight));
        var rewinds := old(Rewinds(sDB.bestNode.Height(), sql.dbSummaryHeight, sql.dbStakeInfoHeight));
        if quit.value < rewinds
        then end.height == start && sDB.bestNode.Height() == old(sDB.bestNode.Height()) - quit.value
        else quit.value == rewinds + (end.height - start)
      ensures (end.Synced? || end.Stopped?) && quit.Some? ==>
        quit.value >= end.height - old(Lowest(sDB.bestNode.Height(), sql.dbSummaryHeight, sql.dbStakeInfoHeight)) +
          old(Rewinds(sDB.bestNode.Height(), sql.dbSummaryHeight, sql.dbStakeInfoHeight))
      ensures Extends(old(sql.State()), sql.State())
      ensures end.Synced? ==> 0 <= end.height == sDB.bestNode.Height()
      ensures end.Synced? ==> sql.dbSummaryHeight == Max(old(sql.dbSummaryHeight), end.height)
      ensures end.Synced? ==> sql.dbStakeInfoHeight == Max(old(sql.dbStakeInfoHeight), end.height)
      ensures end.Synced? && old(NodeAtOrAbove()) ==> end.height == chain.client.best.Height()
      ensures end.Synced? && old(NodeAtOrAbove()) ==> sql.dbSummaryHeight == sql.dbStakeInfoHeight == end.height
      ensures chain.client.best.Height() >= old(chain.client.best.Height())
      ensures end.Stopped? ==> dieAt == Some(end.height)
      ensures end.Stopped? ==> 1 <= end.height == sDB.bestNode.Height() <= chain.client.best.Height()
      ensures end.Stopped? ==> sql.dbSummaryHeight == Max(old(sql.dbSummaryHeight), end.height - 1)
      ensures end.Stopped? ==> sql.dbStakeInfoHeight == Max(old(sql.dbStakeInfoHeight), end.height - 1)
      ensures old(AllOnFinal(final)) ==> AllOnFinal(final)
    {
      hide TablesOk, OnFinal, Block.WellFormed, NeverDrops, GrowsTo, DbOnFinal, RowsOn, Reached, TablesReached, Level,
           GapFree, Lag, Extends;
      var height := chain.GetBestBlock(final);
      ExtendsItself(sql.State());
      var bestBlockHeight := sql.GetBlockSummaryHeight();
      var bestStakeHeight := sql.GetStakeInfoHeight();
      var startHeight, bestNodeHeight, polls;
      OnFinalParts(sDB.Conf(), sDB.State(), sql.State(), final);
      GapFreeBounds(sql.State());
      end, startHeight, bestNodeHeight, polls := StartHeight(bestBlockHeight, bestStakeHeight, quit, final);
      OnFinalParts(sDB.Conf(), sDB.State(), sql.State(), final);
      if !end.Synced? {
        return;
      }
      end := FromStart(startHeight, height, Heights(bestNodeHeight, bestBlockHeight, bestStakeHeight), polls, dieAt, final);
    }

    /** The early exit, or else the loop. */
    method FromStart(start: int, height: int, at: Heights, quit: Option<nat>, dieAt: Option<int>, ghost final: Block)
      returns (end: Outcome)
      requires Valid() && sDB.maturity >= 1 && Lag(start, at) && height == chain.client.best.Height()
      requires at == Heights(sDB.bestNode.Height(), sql.dbSummaryHeight, sql.dbStakeInfoHeight)
      modifies chain`future, chain.client, sDB, sql
      ensures Valid() && (end.Synced? || end.Cancelled? || end.Stopped?)
      ensures end.Synced? ==> end.height >= 0 && end.height == sDB.bestNode.Height()
      ensures end.Synced? ==> sql.dbSummaryHeight == Max(at.summary, end.height)
      ensures end.Synced? ==> sql.dbStakeInfoHeight == Max(at.stake, end.height)
      ensures end.Synced? ==> (end.height == start >= height || end.height == chain.client.best.Height() >= height)
      ensures end.Cancelled? ==> quit == Some(end.height - start)
      ensures quit.Some? && !end.Cancelled? ==> quit.value >= end.height - start
      ensures Extends(old(sql.State()), sql.State())
      ensures chain.client.best.Height() >= height
      ensures end.Stopped? ==> dieAt == Some(end.height)
      ensures end.Stopped? ==> 1 <= end.height == sDB.bestNode.Height() <= chain.client.best.Height()
      ensures end.Stopped? ==> sql.dbSummaryHeight == Max(at.summary, end.height - 1)
      ensures end.Stopped? ==> sql.dbStakeInfoHeight == Max(at.stake, end.height - 1)
      ensures end.Synced? && end.height == start >= height ==> chain.client.best == old(chain.client.best)
      ensures old(AllOnFinal(final)) ==> AllOnFinal(final)
    {
      hide TablesOk, OnFinal, Block.WellFormed, NeverDrops, GrowsTo, Reached, TablesReached, Level, GapFree, Lag, Extends;
      LagHeights(start, at);
      ExtendsItself(sql.State());
      var minBlocksToCheck := height - start;
      if minBlocksToCheck < 1 {
        return Synced(start);
      }
      StartReached(sDB.State(), sql.State(), start, at);
      end := CatchUpLoop(start, height, at, quit, dieAt, final);
      EndReached(sDB.State(), sql.State(), end.height, at);
    }

    /** The choice of the start height, with the refusal and the rewind. */
    method StartHeight(bestBlockHeight: int, bestStakeHeight: int, quit: Option<nat>, ghost final: Block)
      returns (end: Outcome, startHeight: int, bestNodeHeight: int, polls: Option<nat>)
      requires Level(sDB.State()) && bestBlockHeight >= -1 && bestStakeHeight >= -1
      modifies sDB`bestNode, sDB`stakeDB
      ensures Level(sDB.State()) && (end.Synced? || end.Cancelled? || end == Refused)
      ensures end == Refused <==> old(Refuses(sDB.bestNode.Height(), bestBlockHeight, bestStakeHeight))
      ensures end == Refused ==> sDB.State() == old(sDB.State())
      ensures quit.None? ==> !end.Cancelled? && polls.None?
      ensures end.Synced? ==> bestNodeHeight == sDB.bestNode.Height() <= old(sDB.bestNode.Height())
      ensures end.Synced? ==> Lag(startHeight, Heights(bestNodeHeight, bestBlockHeight, bestStakeHeight))
      ensures end.Synced? ==> startHeight == Lowest(old(sDB.bestNode.Height()), bestBlockHeight, bestStakeHeight)
      ensures end.Synced? && quit.Some? ==> polls.Some?
      ensures end.Synced? && quit.Some? ==>
        polls.value == quit.value - Rewinds(old(sDB.bestNode.Height()), bestBlockHeight, bestStakeHeight)
      ensures end.Cancelled? ==>
        && end.height == Lowest(old(sDB.bestNode.Height()), bestBlockHeight, bestStakeHeight)
        && quit == Some(old(sDB.bestNode.Height()) - sDB.bestNode.Height())
        && quit.value < Rewinds(old(sDB.bestNode.Height()), bestBlockHeight, bestStakeHeight)
      ensures old(DbOnFinal(sDB.Conf(), sDB.State(), final)) ==> DbOnFinal(sDB.Conf(), sDB.State(), final)
    {
      hide Level, DbOnFinal;
      polls := quit;
      bestNodeHeight := sDB.Height();
      startHeight := bestStakeHeight;
      if bestBlockHeight < bestStakeHeight {
        startHeight := bestBlockHeight;
      }
      if bestNodeHeight < startHeight {
        startHeight := bestNodeHeight;
      } else if bestNodeHeight > startHeight && bestNodeHeight > 0 {
        if startHeight < 0 || bestNodeHeight > 2 * startHeight {
          end := Refused;
          return;
        }
        var status, cancelled;
        status, cancelled, polls := Rewind(startHeight, polls, final);
        if cancelled {
          end := Cancelled(startHeight);
          return;
        }
        bestNodeHeight := sDB.Height();
        if bestNodeHeight != startHeight {
          end := Crashed;
          return;
        }
      }
      end := Synced(startHeight);
    }

    /** A run killed between connecting block i and storing its rows, and the run of the next process. It is
        refused exactly when a table still lacked the first block after genesis, and otherwise repairs. */
    method ResyncAfterKill(i: int, ghost final: Block) returns (first: Outcome, end: Outcome)
      requires Valid() && sDB.maturity >= 1 && NodeAtOrAbove()
      modifies chain`future, chain.client, sDB, sql
      ensures Valid() && (first.Synced? || first.Stopped? || first == Refused)
      ensures first.Stopped? ==> first.height == i >= 1 && (end.Synced? || end == Refused)
      ensures first.Stopped? ==>
        (end == Refused <==> i == 1 && (old(sql.dbSummaryHeight) < 1 || old(sql.dbStakeInfoHeight) < 1))
      ensures first.Stopped? && end.Synced? ==> end.height == chain.client.best.Height() == sDB.bestNode.Height()
      ensures first.Stopped? && end.Synced? ==> sql.dbSummaryHeight == sql.dbStakeInfoHeight == end.height
      ensures old(AllOnFinal(final)) ==> AllOnFinal(final)
    {
      hide TablesOk, OnFinal, Block.WellFormed, NeverDrops, GrowsTo, Level, GapFree;
      first := ResyncDBWithPoolValue(None, Some(i), final);
      end := first;
      if first.Stopped? {
        OpenKeeps(sDB.Conf(), sDB.State(), sql.State(), final);
        sDB.Open();
        end := ResyncDBWithPoolValue(None, None, final);
      }
    }

    /** The node's chain is at least as high as every store. */
    ghost predicate NodeAtOrAbove()
      reads chain, chain.client, sDB, sql
    {
      && chain.client.best.Height() >= sDB.bestNode.Height()
      && chain.client.best.Height() >= sql.dbSummaryHeight
      && chain.client.best.Height() >= sql.dbStakeInfoHeight
    }
  }

  lemma OpenKeeps(c: Config, db: Db, t: Tables, final: Block)
    ensures var db' := Db(db.tip, db.best, map[], map[]);
      (Level(db) ==> Level(db')) && (OnFinal(c, db, t, final) ==> OnFinal(c, db', t, final))
  {
    hide RowsOn, Replay, Ancestor;
  }

  lemma GapFreeBounds(t: Tables)
    requires GapFree(t)
    ensures t.summaryHeight >= -1 && t.stakeHeight >= -1
  {
  }

  lemma LagHeights(start: int, at: Heights)
    requires Lag(start, at)
    ensures at.node == Max(0, start) && at.summary >= start >= -1 && at.stake >= start
  {
  }

  lemma StartReached(db: Db, t: Tables, start: int, at: Heights)
    requires Level(db) && GapFree(t) && Lag(start, at)
    requires db.best.Height() == at.node && t.summaryHeight == at.summary && t.stakeHeight == at.stake
    ensures Reached(db, t, start + 1, at)
  {
    hide Level, GapFree;
  }

  lemma EndReached(db: Db, t: Tables, height: int, at: Heights)
    ensures Reached(db, t, height + 1, at) ==> db.best.Height() == Max(0, height)
    ensures Reached(db, t, height + 1, at) ==>
      t.summaryHeight == Max(at.summary, height) && t.stakeHeight == Max(at.stake, height)
    ensures TablesReached(t, height, at) ==>
      t.summaryHeight == Max(at.summary, height - 1) && t.stakeHeight == Max(at.stake, height - 1)
  {
    hide Level, GapFree;
  }

  lemma OnFinalParts(c: Config, db: Db, t: Tables, final: Block)
    ensures OnFinal(c, db, t, final) <==> (
      DbOnFinal(c, db, final) && RowsOn(c, t.summaries, final) && RowsOn(c, t.stakeInfo, final))
  {
  }

  /** What one round keeps. */
  lemma RoundLemma(c: Config, db: Db, t: Tables, i: int, at: Heights, main: Block, start: int, final: Block)
    requires c.maturity >= 1
    requires main.WellFormed() && 0 <= i <= main.Height() && Lag(start, at) && i > start && Reached(db, t, i, at)
    ensures i > at.node ==> i == db.best.Height() + 1 && Connect(c, db, Ancestor(main, i), main).1 == Fine
    ensures var b := Ancestor(main, i);
      var db' := RoundDb(c, db, b, at, main);
      var t' := RoundTables(t, Collected(c, db', b), at);
      && Reached(db', t', i + 1, at)
      && Level(db') && db'.best.Height() == i && TablesReached(t, i, at) && GapFree(t) && GapFree(t')
      && (OnFinal(c, db, t, final) && OnChain(main, final) ==> OnFinal(c, db', t, final) && OnFinal(c, db', t', final))
  {
    hide Connect, Collected, PoolInfoOf;
    var b := Ancestor(main, i);
    var db' := RoundDb(c, db, b, at, main);
    var row := Collected(c, db', b);
    CollectedBlock(c, db', b);
    if i > at.node {
      ConnectNext(c, db, b, main);
    }
    StoreNext(t, row, at, start);
    if OnFinal(c, db, t, final) && OnChain(main, final) {
      ConnectOnFinal(c, db, i, at, main, start, final);
      hide Reached, Ancestor, RowsOn, Ok, OwnRow, RoundDb, RoundTables;
      StoreOnFinal(c, t, row, at, final);
    }
  }

  lemma RowsOfTip(c: Config, table: map<int, Row>, tip: Block, final: Block)
    requires final.WellFormed() && OnChain(tip, final) && RowsOn(c, table, final)
    requires forall h :: h in table <==> 0 <= h <= tip.Height()
    ensures tip.WellFormed() && RowsOf(c, table, tip)
  {
    hide OwnRow;
    forall h | h in table ensures table[h] == OwnRow(c, Ancestor(tip, h)) {
      AncestorTwice(final, tip.Height(), h);
    }
  }

  /** A resync that brought the stores level leaves them as the monitors assume: from there on every run of
      notices keeps the tables faithful. */
  lemma SyncedStoresAgree(c: Config, db: Db, t: Tables, final: Block)
    requires OnFinal(c, db, t, final) && GapFree(t)
    requires db.best.Height() == t.summaryHeight == t.stakeHeight
    ensures db.tip.WellFormed() && Faithful(c, t, db.tip)
    ensures var none := Buffer([], false, None);
      AllAgree(c, System(Mon(db, [], false, None), t, none, none), Followed(Announced(db.tip, None, []), db.pool.Keys))
  {
    hide RowsOn, RowsOf, BlocksOk, PoolOk, OwnRow;
    RowsOfTip(c, t.summaries, db.tip, final);
    RowsOfTip(c, t.stakeInfo, db.tip, final);
  }
}
