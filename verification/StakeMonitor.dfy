/** The chain monitor of stakedb/chainmonitor.go: the reorganisation protocol of the stake database. */
module StakeMonitor {
  import opened Options
  import opened StakeChain
  import opened StakeDb
  import opened StakeStore

  datatype ReorgData = ReorgData(oldChainHead: Block, oldChainHeight: int, newChainHead: Block, newChainHeight: int)

  /** The state of the monitor, as a value. */
  datatype Mon = Mon(db: Db, side: seq<Block>, reorganizing: bool, reorg: Option<ReorgData>)

  // ---------------------------------------------------------------------------------------------
  // One step of the monitor

  datatype Switched = Switched(db: Db, status: Status, height: int, head: Option<Block>)

  /** switchToSideChain */
  function Switch(c: Config, db: Db, side: seq<Block>, main: Block): Switched {
    if side == [] || side[0].Genesis? then Switched(db, Failed, 0, None)
    else
      var ancestorHeight := side[0].Height() - 1;
      if side[0].prev.Height() != ancestorHeight then Switched(db, Panicked, 0, None)
      else
        var (back, status) := DisconnectN(db, db.best.Height() - ancestorHeight);
        if status != Fine then Switched(back, status, 0, None)
        else if back.best.Height() != ancestorHeight then Switched(back, Panicked, 0, None)
        else
          var (forth, status) := ConnectAll(c, back, side, main);
          if status != Fine then Switched(forth, status, forth.best.Height(), Some(forth.tip))
          else if forth.best.Height() != side[|side| - 1].Height() then Switched(forth, Panicked, 0, None)
          else Switched(forth, Fine, forth.best.Height(), Some(side[|side| - 1]))
  }

  /** A connected block, handled. */
  function HandleBlock(c: Config, m: Mon, b: Block, main: Block): (Mon, Status) {
    if m.reorganizing && m.reorg.Some? then
      var side := m.side + [b];
      var d := m.reorg.value;
      if d.newChainHead != b then (m.(side := side), Fine)
      else
        var s := Switch(c, m.db, side, main);
        if s.status != Fine then (m.(db := s.db, side := side), Panicked)
        else if s.head != Some(d.newChainHead) || s.height != d.newChainHeight then
          (m.(db := s.db, side := side), Panicked)
        else (Mon(s.db, [], false, m.reorg), Fine)
    else
      var (db, status) := Connect(c, m.db, b, main);
      (m.(db := db), status)
  }

  /** A reorganisation notice, handled. */
  function HandleReorg(m: Mon, d: ReorgData): Mon {
    if m.reorganizing then m else m.(reorganizing := true, reorg := Some(d))
  }

  // ---------------------------------------------------------------------------------------------
  // The monitor

  class ChainMonitor {
    const db: StakeDatabase
    var sideChain: seq<Block>
    var reorganizing: bool
    var reorgData: Option<ReorgData>

    ghost predicate Valid()
      reads this, db
    {
      db.Priced() && (reorganizing ==> reorgData.Some?)
    }

    ghost function State(): Mon
      reads this, db
    {
      Mon(db.State(), sideChain, reorganizing, reorgData)
    }

    constructor (db: StakeDatabase)
      requires db.Priced()
      ensures Valid() && this.db == db && State() == Mon(db.State(), [], false, None)
    {
      this.db := db;
      sideChain, reorganizing, reorgData := [], false, None;
    }

    /** switchToSideChain */
    method SwitchToSideChain() returns (status: Status, height: int, head: Option<Block>)
      requires Valid()
      modifies db
      ensures Valid()
      ensures Switched(db.State(), status, height, head) ==
        Switch(db.Conf(), old(db.State()), sideChain, db.nodeClient.best)
    {
      if |sideChain| == 0 || sideChain[0].Genesis? {
        return Failed, 0, None;
      }
      var block := sideChain[0];
      var prevBlock := block.prev;
      var commonAncestorHeight := block.Height() - 1;
      if prevBlock.Height() != commonAncestorHeight {
        return Panicked, 0, None;
      }
      var mainTip: int := db.Height();
      status := db.DisconnectBlocks(mainTip - commonAncestorHeight);
      if status != Fine {
        return status, 0, None;
      }
      mainTip := db.Height();
      if mainTip != commonAncestorHeight {
        return Panicked, 0, None;
      }
      status := ConnectSideChain();
      mainTip := db.Height();
      if status != Fine {
        return status, mainTip, Some(db.stakeDB);
      }
      block := sideChain[|sideChain| - 1];
      if mainTip != block.Height() {
        return Panicked, 0, None;
      }
      return Fine, mainTip, Some(block);
    }

    /** The loop of switchToSideChain. */
    method ConnectSideChain() returns (status: Status)
      requires Valid()
      modifies db
      ensures Valid()
      ensures (db.State(), status) == ConnectAll(db.Conf(), old(db.State()), sideChain, db.nodeClient.best)
    {
      status := Fine;
      assert sideChain[0..] == sideChain;
      for i := 0 to |sideChain|
        invariant Valid() && status == Fine
        invariant ConnectAll(db.Conf(), db.State(), sideChain[i..], db.nodeClient.best) ==
          ConnectAll(db.Conf(), old(db.State()), sideChain, db.nodeClient.best)
      {
        assert sideChain[i..][0] == sideChain[i] && sideChain[i..][1..] == sideChain[i + 1..];
        status := db.ConnectBlock(sideChain[i]);
        if status != Fine {
          return;
        }
      }
    }

    /** One round of BlockConnectedHandler for a connected block. */
    method OnBlock(hash: Block) returns (status: Status)
      requires Valid()
      modifies this, db
      ensures Valid()
      ensures (State(), status) == HandleBlock(db.Conf(), old(State()), hash, db.nodeClient.best)
    {
      if reorganizing {
        var data := reorgData.value;
        sideChain := sideChain + [hash];
        if data.newChainHead != hash {
          return Fine;
        }
        var newHeight, newHash;
        status, newHeight, newHash := SwitchToSideChain();
        if status != Fine {
          return Panicked;
        }
        if newHash != Some(data.newChainHead) || data.newChainHeight != newHeight {
          return Panicked;
        }
        sideChain := [];
        reorganizing := false;
      } else {
        status := db.ConnectBlock(hash);
      }
    }

    /** One round of ReorgHandler for a notice. */
    method OnReorg(data: ReorgData)
      requires Valid()
      modifies this
      ensures Valid() && State() == HandleReorg(old(State()), data)
    {
      if reorganizing {
        return;
      }
      reorganizing := true;
      reorgData := Some(data);
    }
  }
}
