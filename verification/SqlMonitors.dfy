/** The two monitors that write the SQLite tables: blockdata/chainmonitor.go stores the blocks of the main
    chain as they come, db/hcsqlite/chainmonitor.go rewrites rows after a reorganisation. */
module SqlMonitors {
  import opened Options
  import opened StakeChain
  import opened StakeDb
  import opened StakeStore
  import opened StakeMonitor
  import opened SqlTables

  /** The reorganisation state of either monitor. */
  datatype Buffer = Buffer(side: seq<Block>, reorganizing: bool, reorg: Option<ReorgData>)

  // ---------------------------------------------------------------------------------------------
  // One step of each monitor, on values

  /** The row collected for a block: its own pool info if the stake database kept it, else that of the best
      block. */
  function Collected(c: Config, db: Db, b: Block): Row {
    Row(b, if b in db.pool then db.pool[b] else PoolInfoOf(c.lib, db.best))
  }

  /** Level with the chain the collector asks for the best block, whichever it is, otherwise for the block
      announced. */
  function Picked(b: Block, best: Block): Block {
    if best.Height() != b.Height() then b else best
  }

  /** The blockdata monitor handles a block. The last block of a reorganisation goes to other savers. */
  function StoreBlock(c: Config, db: Db, t: Tables, m: Buffer, b: Block, best: Block): (Tables, Buffer) {
    if m.reorganizing && m.reorg.Some? then
      if m.reorg.value.newChainHead != b then (t, m.(side := m.side + [b]))
      else (t, Buffer([], false, m.reorg))
    else (StoreBoth(t, Collected(c, db, Picked(b, best))), m)
  }

  function StoreAll(c: Config, db: Db, t: Tables, side: seq<Block>): Tables
    decreases |side|
  {
    if side == [] then t
    else StoreBoth(StoreAll(c, db, t, side[..|side| - 1]), Collected(c, db, side[|side| - 1]))
  }

  /** The hcsqlite monitor handles a block. After the rewrite it compares the best row with the new head. */
  function Rewrite(c: Config, db: Db, t: Tables, m: Buffer, b: Block): (Tables, Buffer, Status) {
    if m.reorganizing && m.reorg.Some? then
      var side := m.side + [b];
      var d := m.reorg.value;
      if d.newChainHead != b then (t, m.(side := side), Fine)
      else
        var t' := StoreAll(c, db, t, side);
        if t'.summaryHeight in t'.summaries &&
           t'.summaries[t'.summaryHeight].block == d.newChainHead &&
           t'.summaries[t'.summaryHeight].block.Height() == d.newChainHeight
        then (t', Buffer([], false, m.reorg), Fine)
        else (t', m.(side := side), Panicked)
    else (t, m, Fine)
  }

  function Notice(m: Buffer, d: ReorgData): Buffer {
    if m.reorganizing then m else m.(reorganizing := true, reorg := Some(d))
  }

  // ---------------------------------------------------------------------------------------------
  // The monitors

  /** CollectBlockInfo, and with it CollectAPITypes. */
  method CollectBlockInfo(stakeDB: StakeDatabase, hash: Block) returns (row: Row)
    requires stakeDB.Priced()
    modifies stakeDB`liveTicketCache
    ensures stakeDB.Priced() && row == Collected(stakeDB.Conf(), stakeDB.State(), hash)
    ensures row.block == hash
    ensures row.pool == if hash in stakeDB.poolInfo then stakeDB.poolInfo[hash] else PoolInfoOf(stakeDB.lib, stakeDB.bestNode)
  {
    var ticketPoolInfo := stakeDB.PoolInfo(hash);
    if ticketPoolInfo.None? {
      var tpi, _ := stakeDB.PoolInfoBest();
      ticketPoolInfo := Some(tpi);
    }
    row := Row(hash, ticketPoolInfo.value);
  }

  class BlockDataMonitor {
    const stakeDB: StakeDatabase
    const saver: SqlDb
    var sideChain: seq<Block>
    var reorganizing: bool
    var reorgData: Option<ReorgData>

    ghost predicate Valid()
      reads this, stakeDB, saver
    {
      stakeDB.Priced() && saver.Valid() && (reorganizing ==> reorgData.Some?)
    }

    ghost function State(): Buffer
      reads this
    {
      Buffer(sideChain, reorganizing, reorgData)
    }

    constructor (stakeDB: StakeDatabase, saver: SqlDb)
      requires stakeDB.Priced() && saver.Valid()
      ensures Valid() && this.stakeDB == stakeDB && this.saver == saver && State() == Buffer([], false, None)
    {
      this.stakeDB, this.saver := stakeDB, saver;
      sideChain, reorganizing, reorgData := [], false, None;
    }

    /** One round of BlockConnectedHandler for a connected block. */
    method OnBlock(hash: Block)
      requires Valid()
      modifies this, saver, stakeDB`liveTicketCache
      ensures Valid()
      ensures (saver.State(), State()) ==
        StoreBlock(stakeDB.Conf(), stakeDB.State(), old(saver.State()), old(State()), hash, stakeDB.nodeClient.best)
      ensures old(reorganizing) ==> saver.State() == old(saver.State())
      ensures !old(reorganizing) ==> State() == old(State())
      ensures !old(reorganizing) && hash.Height() != stakeDB.nodeClient.best.Height() ==>
        && hash.Height() in saver.summaries && saver.summaries[hash.Height()].block == hash
        && hash.Height() in saver.stakeInfo && saver.stakeInfo[hash.Height()].block == hash
      ensures !old(reorganizing) ==> forall h :: h != hash.Height() ==>
        && (h in saver.summaries <==> h in old(saver.summaries))
        && (h in saver.summaries ==> saver.summaries[h] == old(saver.summaries)[h])
    {
      hide TablesOk, PoolInfoOf;
      var reorg := reorganizing;
      if reorg {
        sideChain := sideChain + [hash];
        if reorgData.value.newChainHead != hash {
          return;
        }
        sideChain := [];
        reorganizing := false;
      }
      var height := hash.Height();
      var chainHeight := stakeDB.nodeClient.best.Height();
      var blockData: Row;
      if chainHeight != height {
        blockData := CollectBlockInfo(stakeDB, hash);
      } else {
        blockData := CollectBlockInfo(stakeDB, stakeDB.nodeClient.best);
      }
      if !reorg {
        saver.StoreBlockSummary(blockData);
        saver.StoreStakeInfoExtended(blockData);
      }
    }

    /** One round of ReorgHandler for a notice. */
    method OnReorg(data: ReorgData)
      requires Valid()
      modifies this
      ensures Valid() && State() == Notice(old(State()), data)
    {
      if reorganizing {
        return;
      }
      reorganizing := true;
      reorgData := Some(data);
    }
  }

  class SqlMonitor {
    const stakeDB: StakeDatabase
    const db: SqlDb
    var sideChain: seq<Block>
    var reorganizing: bool
    var reorgData: Option<ReorgData>

    ghost predicate Valid()
      reads this, stakeDB, db
    {
      stakeDB.Priced() && db.Valid() && (reorganizing ==> reorgData.Some?)
    }

    ghost function State(): Buffer
      reads this
    {
      Buffer(sideChain, reorganizing, reorgData)
    }

    constructor (stakeDB: StakeDatabase, db: SqlDb)
      requires stakeDB.Priced() && db.Valid()
      ensures Valid() && this.stakeDB == stakeDB && this.db == db && State() == Buffer([], false, None)
    {
      this.stakeDB, this.db := stakeDB, db;
      sideChain, reorganizing, reorgData := [], false, None;
    }

    /** switchToSideChain: data for every block of the side chain, then the best row there is. */
    method SwitchToSideChain() returns (bestBlockSummary: Option<Row>)
      requires Valid() && sideChain != []
      modifies db, stakeDB`liveTicketCache
      ensures Valid()
      ensures db.State() == StoreAll(stakeDB.Conf(), stakeDB.State(), old(db.State()), sideChain)
      ensures bestBlockSummary.Some? <==> db.dbSummaryHeight in db.summaries
      ensures bestBlockSummary.Some? ==> bestBlockSummary.value == db.summaries[db.dbSummaryHeight]
    {
      hide TablesOk, PoolInfoOf;
      for i := 0 to |sideChain|
        invariant Valid()
        invariant db.State() == StoreAll(stakeDB.Conf(), stakeDB.State(), old(db.State()), sideChain[..i])
      {
        assert sideChain[..i + 1][..i] == sideChain[..i];
        var summary := CollectBlockInfo(stakeDB, sideChain[i]);
        db.StoreBlockSummary(summary);
        db.StoreStakeInfoExtended(summary);
      }
      assert sideChain[..|sideChain|] == sideChain;
      bestBlockSummary := db.GetBestBlockSummary();
    }

    /** One round of BlockConnectedHandler for a connected block. */
    method OnBlock(hash: Block) returns (status: Status)
      requires Valid()
      modifies this, db, stakeDB`liveTicketCache
      ensures Valid()
      ensures (db.State(), State(), status) ==
        Rewrite(stakeDB.Conf(), stakeDB.State(), old(db.State()), old(State()), hash)
    {
      hide TablesOk, PoolInfoOf, StoreAll;
      if reorganizing {
        var data := reorgData.value;
        sideChain := sideChain + [hash];
        if data.newChainHead != hash {
          return Fine;
        }
        var best := SwitchToSideChain();
        if best.None? || best.value.block != data.newChainHead || data.newChainHeight != best.value.block.Height() {
          return Panicked;
        }
        sideChain := [];
        reorganizing := false;
      }
      status := Fine;
    }

    /** One round of ReorgHandler for a notice. */
    method OnReorg(data: ReorgData)
      requires Valid()
      modifies this
      ensures Valid() && State() == Notice(old(State()), data)
    {
      if reorganizing {
        return;
      }
      reorganizing := true;
      reorgData := Some(data);
    }
  }
}
