/** StakeDatabase of stakedb/stakedb.go. */
module StakeStore {
  import opened Options
  import opened StakeChain
  import opened Subsequences
  import opened StakeDb

  /** The node behind the RPC client: the tip of its main chain. It may change between calls. */
  class NodeClient {
    var best: Block

    constructor (best: Block)
      ensures this.best == best
    {
      this.best := best;
    }
  }

  class StakeDatabase {
    const maturity: nat
    const lib: Library
    const nodeClient: NodeClient
    /** The hash recorded under "stakechainstate". */
    var stakeDB: Block
    var bestNode: Node
    var blockCache: map<int, Block>
    var liveTicketCache: map<TxHash, int>
    var poolInfo: map<Block, TicketPoolInfo>

    ghost function State(): Db
      reads this`stakeDB, this`bestNode, this`blockCache, this`poolInfo
    {
      Db(stakeDB, bestNode, blockCache, poolInfo)
    }

    ghost function Conf(): Config {
      Config(maturity, lib)
    }

    /** Every cached ticket price is the one the node would give. */
    ghost predicate Priced()
      reads this`liveTicketCache
    {
      forall h :: h in liveTicketCache ==> liveTicketCache[h] == lib.price(h)
    }

    constructor (maturity: nat, lib: Library, nodeClient: NodeClient, genesis: Block)
      requires genesis.Genesis?
      ensures State() == Db(genesis, Initial, map[], map[]) && Priced()
      ensures Conf() == Config(maturity, lib) && this.nodeClient == nodeClient
      ensures Ok(Conf(), State())
    {
      this.maturity, this.lib, this.nodeClient := maturity, lib, nodeClient;
      stakeDB, bestNode := genesis, Initial;
      blockCache, liveTicketCache, poolInfo := map[], map[], map[];
    }

    /** A new process: Open loads the best node from the disk, and the caches start empty. */
    method Open()
      modifies this`blockCache, this`liveTicketCache, this`poolInfo
      ensures State() == Db(stakeDB, bestNode, map[], map[]) && Priced()
    {
      blockCache, liveTicketCache, poolInfo := map[], map[], map[];
    }

    method Height() returns (h: nat)
      ensures h == bestNode.Height()
    {
      h := bestNode.Height();
    }

    /** block: the block at a height, from the cache or else from the main chain of the node. */
    method BlockAt(ind: int) returns (block: Option<Block>, cached: bool)
      ensures cached <==> ind in blockCache
      ensures block.Some? <==> Available(State(), nodeClient.best, ind)
      ensures block.Some? ==> block.value == Served(State(), nodeClient.best, ind)
    {
      cached := ind in blockCache;
      if cached {
        block := Some(blockCache[ind]);
      } else if nodeClient.best.WellFormed() && 0 <= ind <= nodeClient.best.Height() {
        block := Some(Ancestor(nodeClient.best, ind));
      } else {
        block := None;
      }
    }

    method ForgetBlock(ind: int)
      modifies this`blockCache
      ensures blockCache == old(blockCache) - {ind}
    {
      blockCache := blockCache - {ind};
    }

    /** PoolInfoBest. Whatever is in the live ticket cache, the result is what fetching every price would
        give, and the prices fetched on the way are kept. */
    method PoolInfoBest() returns (info: TicketPoolInfo, height: nat)
      requires Priced()
      modifies this`liveTicketCache
      ensures info == PoolInfoOf(lib, bestNode) && height == bestNode.Height()
      ensures Priced() && old(liveTicketCache.Keys) <= liveTicketCache.Keys
      ensures forall h :: h in lib.live(bestNode) ==> h in liveTicketCache
    {
      var liveTickets := lib.live(bestNode);
      var poolSize := |liveTickets|;
      height := bestNode.Height();
      var poolValue := 0;
      for i := 0 to |liveTickets|
        invariant Priced() && old(liveTicketCache.Keys) <= liveTicketCache.Keys
        invariant poolValue == Sum(lib.price, liveTickets[..i])
        invariant forall k :: 0 <= k < i ==> liveTickets[k] in liveTicketCache
      {
        assert liveTickets[..i + 1][..i] == liveTickets[..i];
        var hash := liveTickets[i];
        if hash !in liveTicketCache {
          liveTicketCache := liveTicketCache[hash := lib.price(hash)];
        }
        poolValue := poolValue + liveTicketCache[hash];
      }
      assert liveTickets[..|liveTickets|] == liveTickets;
      var poolCoin := poolValue as real / ATOMS_PER_COIN;
      var valAvg := 0.0;
      if |liveTickets| > 0 {
        valAvg := poolCoin / (poolSize as real);
      }
      info := TicketPoolInfo(poolSize, poolCoin, valAvg);
    }

    /** PoolInfo: what the pool info cache holds for a block. */
    method PoolInfo(hash: Block) returns (info: Option<TicketPoolInfo>)
      ensures info == if hash in poolInfo then Some(poolInfo[hash]) else None
    {
      if hash in poolInfo {
        return Some(poolInfo[hash]);
      }
      return None;
    }

    /** ConnectBlock */
    method ConnectBlock(block: Block) returns (status: Status)
      requires Priced()
      modifies this
      ensures (State(), status) == Connect(Conf(), old(State()), block, nodeClient.best)
      ensures Priced()
    {
      hide Picked, PoolInfoOf, TicketsIn, SpentIn, RevokedIn;
      var height := block.Height();
      var maturingHeight := height - maturity;
      var maturingTickets: seq<TxHash> := [];
      if maturingHeight >= 0 {
        var maturingBlock, wasCached := BlockAt(maturingHeight);
        if maturingBlock.None? {
          return Panicked;
        }
        if wasCached {
          ForgetBlock(maturingHeight);
        }
        maturingTickets := TicketsInBlock(maturingBlock.value);
      }
      blockCache := blockCache[height := block];
      assert blockCache == BlocksAfter(old(blockCache), block, maturity);
      var revokedTickets := RevokedTicketsInBlock(block);
      var spentTickets := TicketsSpentInBlock(block);
      if height <= bestNode.Height() {
        return Failed;
      }
      ConnectNode(block, spentTickets, revokedTickets, maturingTickets);
      status := Fine;
    }

    /** connectBlock, the library accepting the block. The deferred clean-up of the live ticket cache runs
        last. */
    method ConnectNode(block: Block, spent: seq<TxHash>, revoked: seq<TxHash>, maturing: seq<TxHash>)
      requires Priced()
      modifies this`bestNode, this`stakeDB, this`poolInfo, this`liveTicketCache
      ensures bestNode == Connected(old(bestNode), block, spent, revoked, maturing) && stakeDB == block
      ensures poolInfo == old(poolInfo)[block := PoolInfoOf(lib, bestNode)]
      ensures Priced()
      ensures forall h :: h in lib.live(bestNode) && h !in spent && h !in revoked ==> h in liveTicketCache
      ensures forall h :: h in liveTicketCache ==> h !in spent && h !in revoked
    {
      bestNode := Connected(bestNode, block, spent, revoked, maturing);
      stakeDB := block;
      var tpi, _ := PoolInfoBest();
      poolInfo := poolInfo[block := tpi];
      CleanLiveTicketCache(spent, revoked);
    }

    method CleanLiveTicketCache(spent: seq<TxHash>, revoked: seq<TxHash>)
      requires Priced()
      modifies this`liveTicketCache
      ensures Priced()
      ensures forall h :: h in liveTicketCache <==> h in old(liveTicketCache) && h !in spent && h !in revoked
    {
      for i := 0 to |spent|
        invariant Priced()
        invariant forall h :: h in liveTicketCache <==> h in old(liveTicketCache) && h !in spent[..i]
      {
        liveTicketCache := liveTicketCache - {spent[i]};
      }
      for i := 0 to |revoked|
        invariant Priced()
        invariant forall h ::
          h in liveTicketCache <==> h in old(liveTicketCache) && h !in spent && h !in revoked[..i]
      {
        liveTicketCache := liveTicketCache - {revoked[i]};
      }
    }

    /** disconnectBlock */
    method DisconnectBlock() returns (status: Status)
      modifies this`bestNode, this`stakeDB
      ensures (State(), status) == Disconnect(old(State()))
    {
      var childHeight: int := bestNode.Height();
      if stakeDB.Genesis? {
        return Failed;
      }
      var parentBlock := stakeDB.prev;
      if parentBlock.Height() != childHeight - 1 {
        return Panicked;
      }
      if bestNode.Initial? {
        return Failed;
      }
      bestNode := bestNode.parent;
      stakeDB := parentBlock;
      status := Fine;
    }

    /** DisconnectBlocks */
    method DisconnectBlocks(count: int) returns (status: Status)
      modifies this`bestNode, this`stakeDB
      ensures (State(), status) == DisconnectN(old(State()), count)
    {
      status := Fine;
      var i := 0;
      while i < count
        invariant DisconnectN(State(), count - i) == DisconnectN(old(State()), count)
        invariant status == Fine && (i <= count || i == 0)
        decreases count - i
      {
        status := DisconnectBlock();
        if status != Fine {
          return;
        }
        i := i + 1;
      }
    }
  }
}
