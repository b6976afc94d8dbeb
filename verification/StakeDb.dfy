/** The state of the stake database and what its operations do to it, on values. StakeStore.dfy shows
    that the methods of stakedb/stakedb.go follow these functions. */
module StakeDb {
  import opened StakeChain

  /** How an operation ended: as intended, with an error for its caller, or with a panic. */
  datatype Status = Fine | Failed | Panicked

  datatype Config = Config(maturity: nat, lib: Library)

  /** tip: the best block recorded on disk; best: the stake node; blocks: the block cache by height;
      pool: the pool info cache by hash. */
  datatype Db = Db(tip: Block, best: Node, blocks: map<int, Block>, pool: map<Block, TicketPoolInfo>)

  // ---------------------------------------------------------------------------------------------
  // Operations

  /** Whether block(h) finds a block, in the cache or on the main chain of the node, which ends in main. */
  predicate Available(db: Db, main: Block, h: int) {
    h in db.blocks || (main.WellFormed() && 0 <= h <= main.Height())
  }

  function Served(db: Db, main: Block, h: int): Block
    requires Available(db, main, h)
  {
    if h in db.blocks then db.blocks[h] else Ancestor(main, h)
  }

  /** The cache after ConnectBlock: the maturing block is forgotten if it was there, the new one noted. */
  function BlocksAfter(blocks: map<int, Block>, b: Block, maturity: nat): map<int, Block> {
    var h := b.Height() - maturity;
    (if h >= 0 then blocks - {h} else blocks)[b.Height() := b]
  }

  /** ConnectBlock. Without a block to take maturing tickets from the source dereferences nil. */
  function Connect(c: Config, db: Db, b: Block, main: Block): (Db, Status) {
    var h := b.Height() - c.maturity;
    if h >= 0 && !Available(db, main, h) then (db, Panicked)
    else
      var maturing := if h >= 0 then TicketsIn(Served(db, main, h).stx) else [];
      var blocks := BlocksAfter(db.blocks, b, c.maturity);
      if b.Height() <= db.best.Height() then (db.(blocks := blocks), Failed)
      else
        var best := Connected(db.best, b, SpentIn(b.stx), RevokedIn(b.stx), maturing);
        (Db(b, best, blocks, db.pool[b := PoolInfoOf(c.lib, best)]), Fine)
  }

  /** disconnectBlock */
  function Disconnect(db: Db): (Db, Status) {
    if db.tip.Genesis? then (db, Failed)
    else if db.tip.prev.Height() != db.best.Height() - 1 then (db, Panicked)
    else if db.best.Initial? then (db, Failed)
    else (db.(tip := db.tip.prev, best := db.best.parent), Fine)
  }

  /** DisconnectBlocks, which stops at the first error and does nothing for a negative count. */
  function DisconnectN(db: Db, count: int): (Db, Status)
    decreases if count < 0 then 0 else count
  {
    if count <= 0 then (db, Fine)
    else
      var (db', status) := Disconnect(db);
      if status != Fine then (db', status) else DisconnectN(db', count - 1)
  }

  function ConnectAll(c: Config, db: Db, side: seq<Block>, main: Block): (Db, Status)
    decreases |side|
  {
    if side == [] then (db, Fine)
    else
      var (db', status) := Connect(c, db, side[0], main);
      if status != Fine then (db', status) else ConnectAll(c, db', side[1..], main)
  }

  // ---------------------------------------------------------------------------------------------
  // What holds throughout

  /** Cached blocks at or below the tip are those of the chain. Above it anything may linger, since
      disconnecting never clears the cache. */
  ghost predicate BlocksOk(blocks: map<int, Block>, tip: Block)
    requires tip.WellFormed()
  {
    forall h :: h in blocks && h <= tip.Height() ==> 0 <= h && blocks[h] == Ancestor(tip, h)
  }

  /** The pool info kept for a block is that of its own ancestry. */
  ghost predicate PoolOk(c: Config, pool: map<Block, TicketPoolInfo>) {
    forall b :: b in pool ==> b.WellFormed() && pool[b] == PoolInfoOf(c.lib, Replay(b, c.maturity))
  }

  ghost predicate Ok(c: Config, db: Db) {
    && db.tip.WellFormed()
    && db.best == Replay(db.tip, c.maturity)
    && BlocksOk(db.blocks, db.tip)
    && PoolOk(c, db.pool)
  }

  /** The main chain of the node still holds the block whose tickets mature in b. */
  ghost predicate Serves(c: Config, main: Block, b: Block) {
    && main.WellFormed() && b.WellFormed()
    && var h := b.Height() - c.maturity;
       0 <= h <= b.Height() ==> h <= main.Height() && Ancestor(main, h) == Ancestor(b, h)
  }

  /** The node serves every block whose own chain it has, as far as the parent. */
  lemma MainChainServes(c: Config, main: Block, b: Block)
    requires c.maturity >= 1 && main.WellFormed() && b.WellFormed() && b.Child? && OnChain(b.prev, main)
    ensures Serves(c, main, b)
  {
    HeightsArePositive(b);
    var h := b.Height() - c.maturity;
    if h >= 0 {
      AncestorTwice(main, b.prev.Height(), h);
    }
  }

  lemma BlocksAfterChild(blocks: map<int, Block>, b: Block, maturity: nat)
    requires b.Child? && b.WellFormed() && BlocksOk(blocks, b.prev)
    ensures BlocksOk(BlocksAfter(blocks, b, maturity), b)
  {
    HeightsArePositive(b);
    var after := BlocksAfter(blocks, b, maturity);
    forall h | h in after && h <= b.Height() ensures 0 <= h && after[h] == Ancestor(b, h) {
      if h != b.Height() {
        assert h in blocks && after[h] == blocks[h] && blocks[h] == Ancestor(b.prev, h);
      }
    }
  }

  lemma BlocksAfterOld(blocks: map<int, Block>, b: Block, tip: Block, maturity: nat)
    requires tip.WellFormed() && b.WellFormed() && BlocksOk(blocks, tip) && b.Height() <= tip.Height()
    ensures BlocksOk(BlocksAfter(blocks, b, maturity), tip) <==> OnChain(b, tip)
  {
    HeightsArePositive(b);
    var after := BlocksAfter(blocks, b, maturity);
    assert after[b.Height()] == b;
    if OnChain(b, tip) {
      forall h | h in after && h <= tip.Height() ensures 0 <= h && after[h] == Ancestor(tip, h) {
        if h != b.Height() {
          assert h in blocks && after[h] == blocks[h];
        }
      }
    }
  }

  lemma ServedIsOwn(c: Config, db: Db, b: Block, main: Block)
    requires c.maturity >= 1 && b.Child? && b.WellFormed() && BlocksOk(db.blocks, b.prev)
    requires Serves(c, main, b) && b.Height() >= c.maturity
    ensures var h := b.Height() - c.maturity;
      Available(db, main, h) && Served(db, main, h) == Ancestor(b, h)
  {
    HeightsArePositive(b);
  }

  lemma PoolAfter(c: Config, pool: map<Block, TicketPoolInfo>, b: Block)
    requires b.WellFormed() && PoolOk(c, pool)
    ensures PoolOk(c, pool[b := PoolInfoOf(c.lib, Replay(b, c.maturity))])
  {
  }

  /** The cache holds exactly the last `maturity` blocks of the chain, as far as they are of height lo or above. */
  ghost predicate CachedFrom(c: Config, db: Db, lo: nat) {
    forall h :: h in db.blocks <==> lo <= h <= db.tip.Height() && db.tip.Height() < h + c.maturity
  }

  lemma CachedFromAfter(c: Config, db: Db, lo: nat, b: Block, db': Db)
    requires c.maturity >= 1 && CachedFrom(c, db, lo) && b.Height() == db.tip.Height() + 1 && lo <= b.Height()
    requires db'.tip == b && db'.blocks == BlocksAfter(db.blocks, b, c.maturity)
    ensures CachedFrom(c, db', lo)
  {
    hide Block.Height;
  }

  /** What connecting comes to when a block above the stake node's height is served. */
  lemma ConnectIs(c: Config, db: Db, b: Block, main: Block)
    requires b.Height() > db.best.Height()
    requires b.Height() >= c.maturity ==> Available(db, main, b.Height() - c.maturity)
    ensures var h := b.Height() - c.maturity;
      var maturing := if h >= 0 then TicketsIn(Served(db, main, h).stx) else [];
      var best := Connected(db.best, b, SpentIn(b.stx), RevokedIn(b.stx), maturing);
      Connect(c, db, b, main) ==
        (Db(b, best, BlocksAfter(db.blocks, b, c.maturity), db.pool[b := PoolInfoOf(c.lib, best)]), Fine)
  {
    hide BlocksAfter, PoolInfoOf, TicketsIn, SpentIn, RevokedIn, Served, Available, Block.Height, Node.Height;
  }

  lemma ReplayOfChild(b: Block, maturity: nat)
    requires b.WellFormed() && b.Child? && maturity >= 1
    ensures Replay(b, maturity) == Connected(Replay(b.prev, maturity), b, SpentIn(b.stx), RevokedIn(b.stx),
      if b.Height() >= maturity then TicketsIn(Ancestor(b, b.Height() - maturity).stx) else [])
  {
  }

  lemma ConnectReplays(c: Config, db: Db, b: Block, main: Block)
    requires c.maturity >= 1 && Ok(c, db) && b.Child? && b.prev == db.tip && b.WellFormed()
    requires var h := b.Height() - c.maturity;
      h >= 0 ==> h <= b.Height() && Available(db, main, h) && Served(db, main, h) == Ancestor(b, h)
    ensures var best := Replay(b, c.maturity);
      Connect(c, db, b, main) ==
        (Db(b, best, BlocksAfter(db.blocks, b, c.maturity), db.pool[b := PoolInfoOf(c.lib, best)]), Fine)
  {
    hide Connect, BlocksAfter, PoolInfoOf, TicketsIn, SpentIn, RevokedIn, BlocksOk, PoolOk, Ancestor, Served, Available;
    assert db.best.Height() == db.tip.Height() && b.Height() == db.tip.Height() + 1;
    ReplayOfChild(b, c.maturity);
    hide Replay, Block.WellFormed, Block.Height, Node.Height;
    ConnectIs(c, db, b, main);
  }

  /** A child of the tip connects to its replay when the right block is served for the maturing height. */
  lemma ConnectServed(c: Config, db: Db, b: Block, main: Block)
    requires c.maturity >= 1 && Ok(c, db) && b.Child? && b.prev == db.tip && b.WellFormed()
    requires var h := b.Height() - c.maturity;
      h >= 0 ==> h <= b.Height() && Available(db, main, h) && Served(db, main, h) == Ancestor(b, h)
    ensures var (db', status) := Connect(c, db, b, main);
      status == Fine && Ok(c, db') && db'.tip == b && db'.blocks == BlocksAfter(db.blocks, b, c.maturity)
  {
    hide Connect, BlocksAfter, PoolInfoOf, BlocksOk, PoolOk, Ancestor, Served, Available, Replay, Block.WellFormed,
         Block.Height;
    ConnectReplays(c, db, b, main);
    BlocksAfterChild(db.blocks, b, c.maturity);
    PoolAfter(c, db.pool, b);
  }

  lemma ConnectChild(c: Config, db: Db, b: Block, main: Block)
    requires c.maturity >= 1 && Ok(c, db)
    requires b.Child? && b.prev == db.tip && b.WellFormed() && Serves(c, main, b)
    ensures var (db', status) := Connect(c, db, b, main);
      status == Fine && Ok(c, db') && db'.tip == b
  {
    if b.Height() >= c.maturity {
      ServedIsOwn(c, db, b, main);
    }
    ConnectServed(c, db, b, main);
  }

  /** The node is asked for maturing tickets only below height lo: above it whatever chain the node serves
      makes no difference. And the block whose tickets matured makes room for the new one. */
  lemma ConnectFromCache(c: Config, db: Db, lo: nat, b: Block, main: Block)
    requires c.maturity >= 1 && Ok(c, db) && CachedFrom(c, db, lo)
    requires b.Child? && b.prev == db.tip && b.WellFormed() && lo <= b.Height()
    requires b.Height() - c.maturity < lo ==> Serves(c, main, b)
    ensures var (db', status) := Connect(c, db, b, main);
      status == Fine && Ok(c, db') && db'.tip == b && CachedFrom(c, db', lo)
  {
    var h := b.Height() - c.maturity;
    if h >= lo {
      assert h in db.blocks;
      assert BlocksOk(db.blocks, db.tip) && db.blocks[h] == Ancestor(db.tip, h);
    } else if h >= 0 {
      ServedIsOwn(c, db, b, main);
    }
    hide Ok, BlocksOk, Serves, Ancestor, CachedFrom, Connect, BlocksAfter;
    ConnectServed(c, db, b, main);
    CachedFromAfter(c, db, lo, b, Connect(c, db, b, main).0);
  }

  /** Connecting a child of the tip gives the node of its own chain if and only if the block that was served
      for the maturing height, by the cache or by the node, holds the tickets of its own ancestor. */
  lemma ConnectExact(c: Config, db: Db, b: Block, main: Block)
    requires Ok(c, db) && b.Child? && b.prev == db.tip && b.WellFormed()
    requires b.Height() >= c.maturity ==> Available(db, main, b.Height() - c.maturity)
    ensures Connect(c, db, b, main).1 == Fine
    ensures Connect(c, db, b, main).0.best == Replay(b, c.maturity) <==>
      (b.Height() >= c.maturity ==>
        TicketsIn(Served(db, main, b.Height() - c.maturity).stx) == Maturing(b, c.maturity))
  {
    hide PoolInfoOf, BlocksAfter, BlocksOk, PoolOk, Served, Available, Ancestor;
    HeightsArePositive(b);
  }

  /** A block offered at or below the tip is refused, but the cache takes it in all the same. */
  lemma ConnectOld(c: Config, db: Db, b: Block, main: Block)
    requires c.maturity >= 1 && Ok(c, db) && b.WellFormed() && b.Height() <= db.tip.Height()
    requires b.Height() >= c.maturity ==> Available(db, main, b.Height() - c.maturity)
    ensures var (db', status) := Connect(c, db, b, main);
      status == Failed && db'.tip == db.tip && db'.best == db.best && db'.pool == db.pool &&
      (Ok(c, db') <==> OnChain(b, db.tip))
  {
    hide BlocksAfter, PoolInfoOf, BlocksOk, PoolOk, Replay, Ancestor, OnChain;
    BlocksAfterOld(db.blocks, b, db.tip, c.maturity);
  }

  /** Disconnecting goes back along the chain, as far as genesis, and fails when asked for more. */
  lemma {:induction false} DisconnectBack(c: Config, db: Db, count: int)
    requires Ok(c, db)
    ensures var (db', status) := DisconnectN(db, count);
      var height := db.tip.Height();
      && status == (if count <= height then Fine else Failed)
      && Ok(c, db') && db'.pool == db.pool && db'.blocks == db.blocks
      && db'.tip == Ancestor(db.tip, if count < 0 then height else if count <= height then height - count else 0)
    decreases if count < 0 then 0 else count
  {
    HeightsArePositive(db.tip);
    if count > 0 && db.tip.Child? {
      var db' := Disconnect(db).0;
      assert Ok(c, db');
      DisconnectBack(c, db', count - 1);
    }
  }

  /** Connecting stops at the first block that does not connect. */
  lemma {:induction false} ConnectAllJoined(c: Config, db: Db, a: seq<Block>, b: seq<Block>, main: Block)
    ensures var (db', status) := ConnectAll(c, db, a, main);
      ConnectAll(c, db, a + b, main) == if status == Fine then ConnectAll(c, db', b, main) else (db', status)
    decreases |a|
  {
    hide Connect;
    if a == [] {
      assert a + b == b;
    } else {
      assert (a + b)[0] == a[0] && (a + b)[1..] == a[1..] + b;
      ConnectAllJoined(c, Connect(c, db, a[0], main).0, a[1..], b, main);
    }
  }

  /** Blocks that follow one another, the first of them on `base`. */
  ghost predicate Branch(base: Block, side: seq<Block>) {
    && (forall i :: 0 <= i < |side| ==> side[i].Child? && side[i].WellFormed())
    && (side != [] ==> side[0].prev == base)
    && (forall i :: 0 < i < |side| ==> side[i].prev == side[i - 1])
  }

  lemma {:induction false} ConnectBranch(c: Config, db: Db, side: seq<Block>, main: Block)
    requires c.maturity >= 1 && Ok(c, db) && Branch(db.tip, side)
    requires forall s <- side :: Serves(c, main, s)
    ensures var (db', status) := ConnectAll(c, db, side, main);
      status == Fine && Ok(c, db') && db'.tip == if side == [] then db.tip else side[|side| - 1]
    decreases |side|
  {
    if side != [] {
      assert side[0] in side;
      ConnectChild(c, db, side[0], main);
      var db' := Connect(c, db, side[0], main).0;
      assert Branch(db'.tip, side[1..]);
      ConnectBranch(c, db', side[1..], main);
    }
  }

  /** Every block connected has its pool info kept. */
  lemma {:induction false} ConnectAllPool(c: Config, db: Db, side: seq<Block>, main: Block)
    requires ConnectAll(c, db, side, main).1 == Fine
    ensures forall b :: b in side || b in db.pool ==> b in ConnectAll(c, db, side, main).0.pool
    decreases |side|
  {
    hide BlocksAfter, PoolInfoOf, Served, Available;
    if side != [] {
      ConnectAllPool(c, Connect(c, db, side[0], main).0, side[1..], main);
      assert forall b :: b in side ==> b == side[0] || b in side[1..];
    }
  }
}
