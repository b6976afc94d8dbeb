/** BuildStakeTree of txhelpers/staketree.go: ticket pool values for a whole chain in one pass, and how they
    relate to the values that the stake database keeps block by block. */
module StakeTree {
  import opened StakeChain
  import opened StakeDb

  /** enabled: the network's StakeEnabledHeight, from which on the batch looks for maturing tickets. */
  datatype Params = Params(maturity: nat, enabled: int, lib: Library)

  /** The blocks that round i of the pass looks at are there. */
  predicate Workable(p: Params, blocks: map<int, Block>, i: int) {
    i in blocks && (i >= p.enabled ==> i - p.maturity in blocks)
  }

  predicate Complete(p: Params, blocks: map<int, Block>, n: int) {
    forall i :: 1 <= i < n ==> Workable(p, blocks, i)
  }

  /** The stake node after block i of the batch. */
  function BatchNode(p: Params, blocks: map<int, Block>, i: nat): Node
    requires Complete(p, blocks, i + 1)
  {
    if i == 0 then Initial
    else
      assert Workable(p, blocks, i);
      var maturing := if i >= p.enabled then TicketsIn(blocks[i - p.maturity].stx) else [];
      Connected(BatchNode(p, blocks, i - 1), blocks[i], SpentIn(blocks[i].stx), RevokedIn(blocks[i].stx), maturing)
  }

  ghost predicate Priced(lib: Library, live: map<TxHash, int>) {
    forall h :: h in live ==> live[h] == lib.price(h)
  }

  /** The total price of the live tickets, with a cache of prices. */
  method PoolValue(lib: Library, node: Node, cache: map<TxHash, int>) returns (amt: int, cache': map<TxHash, int>)
    requires Priced(lib, cache)
    ensures amt == Sum(lib.price, lib.live(node)) && Priced(lib, cache')
  {
    var liveTickets := lib.live(node);
    amt, cache' := 0, cache;
    for k := 0 to |liveTickets|
      invariant amt == Sum(lib.price, liveTickets[..k]) && Priced(lib, cache')
    {
      assert liveTickets[..k + 1][..k] == liveTickets[..k];
      var hash := liveTickets[k];
      if hash !in cache' {
        cache' := cache'[hash := lib.price(hash)];
      }
      amt := amt + cache'[hash];
    }
    assert liveTickets[..|liveTickets|] == liveTickets;
  }

  method Forget(lib: Library, cache: map<TxHash, int>, gone: seq<TxHash>) returns (cache': map<TxHash, int>)
    requires Priced(lib, cache)
    ensures Priced(lib, cache') && forall h :: h in cache' <==> h in cache && h !in gone
  {
    cache' := cache;
    for k := 0 to |gone|
      invariant Priced(lib, cache') && forall h :: h in cache' <==> h in cache && h !in gone[..k]
    {
      cache' := cache' - {gone[k]};
    }
  }

  /** The value the pass leaves for block k. */
  function ValueAt(p: Params, blocks: map<int, Block>, required: int, k: nat): int
    requires Complete(p, blocks, k)
  {
    if k >= 1 && k >= required then Sum(p.lib.price, p.lib.live(BatchNode(p, blocks, k - 1))) else 0
  }

  ghost predicate ValuesOk(p: Params, blocks: map<int, Block>, required: int, values: seq<int>)
    requires Complete(p, blocks, |values|)
  {
    forall k :: 0 <= k < |values| ==> values[k] == ValueAt(p, blocks, required, k)
  }

  /** One round of the loop, which dereferences nil if a block it needs is not there. */
  method Round(p: Params, blocks: map<int, Block>, i: nat, bestNode: Node, cache: map<TxHash, int>)
    returns (ok: bool, bestNode': Node, cache': map<TxHash, int>)
    requires i >= 1 && Complete(p, blocks, i) && bestNode == BatchNode(p, blocks, i - 1) && Priced(p.lib, cache)
    ensures ok <==> Workable(p, blocks, i)
    ensures ok ==> Complete(p, blocks, i + 1) && bestNode' == BatchNode(p, blocks, i) && Priced(p.lib, cache')
  {
    hide Complete, Priced, Sum;
    bestNode', cache' := bestNode, cache;
    var ticketsToAdd: seq<TxHash> := [];
    if i >= p.enabled {
      var matureHeight := i - p.maturity;
      if matureHeight !in blocks {
        return false, bestNode', cache';
      }
      ticketsToAdd := TicketsInBlock(blocks[matureHeight]);
    }
    if i !in blocks {
      return false, bestNode', cache';
    }
    var block := blocks[i];
    var spentTickets := TicketsSpentInBlock(block);
    cache' := Forget(p.lib, cache', spentTickets);
    var revokedTickets := RevokedTicketsInBlock(block);
    cache' := Forget(p.lib, cache', revokedTickets);
    bestNode' := Connected(bestNode, block, spentTickets, revokedTickets, ticketsToAdd);
    CompleteGrows(p, blocks, i);
    ok := true;
  }

  lemma CompleteGrows(p: Params, blocks: map<int, Block>, i: int)
    requires Complete(p, blocks, i)
    ensures i >= 1 ==> (Complete(p, blocks, i + 1) <==> Workable(p, blocks, i))
  {
  }

  /** BuildStakeTree. It fails without a genesis block. */
  method BuildStakeTree(p: Params, blocks: map<int, Block>, poolRequiredHeight: int)
    returns (status: Status, values: seq<int>)
    ensures status == Failed <==> !(0 in blocks && blocks[0].Height() == 0)
    ensures status == Panicked <==> 0 in blocks && blocks[0].Height() == 0 && !Complete(p, blocks, |blocks|)
    ensures status == Fine ==> |values| == |blocks| && ValuesOk(p, blocks, poolRequiredHeight, values)
    ensures status == Fine ==> forall k :: 0 <= k < |values| ==>
      values[k] == if k >= 1 && k >= poolRequiredHeight then Sum(p.lib.price, p.lib.live(BatchNode(p, blocks, k - 1))) else 0
  {
    hide Workable, BatchNode, Priced, Sum;
    if 0 !in blocks || blocks[0].Height() != 0 {
      return Failed, [];
    }
    var height := |blocks| - 1;
    var bestNode, ok := Initial, true;
    assert bestNode == BatchNode(p, blocks, 0) by { BatchStart(p, blocks); }
    var poolValues := new int[height + 1](_ => 0);
    var liveTicketMap: map<TxHash, int> := map[];
    PricedStart(p.lib);
    for i := 1 to height + 1
      invariant poolValues.Length == |blocks| && Complete(p, blocks, i)
      invariant bestNode == BatchNode(p, blocks, i - 1)
      invariant ValuesOk(p, blocks, poolRequiredHeight, poolValues[..i])
      invariant forall k :: i <= k < poolValues.Length ==> poolValues[k] == 0
      invariant Priced(p.lib, liveTicketMap)
    {
      ghost var before := poolValues[..i];
      if i >= poolRequiredHeight {
        poolValues[i], liveTicketMap := PoolValue(p.lib, bestNode, liveTicketMap);
      }
      assert poolValues[..i + 1] == before + [ValueAt(p, blocks, poolRequiredHeight, i)];
      ok, bestNode, liveTicketMap := Round(p, blocks, i, bestNode, liveTicketMap);
      if !ok {
        return Panicked, [];
      }
    }
    assert poolValues[..|blocks|] == poolValues[..];
    return Fine, poolValues[..];
  }

  lemma BatchStart(p: Params, blocks: map<int, Block>)
    ensures BatchNode(p, blocks, 0) == Initial
  {
  }

  lemma PricedStart(lib: Library)
    ensures Priced(lib, map[])
  {
  }

  // ---------------------------------------------------------------------------------------------
  // The batch against block by block

  /** The blocks of the chain that ends in tip, by height. */
  ghost predicate ChainOf(blocks: map<int, Block>, tip: Block)
    requires tip.WellFormed()
  {
    && |blocks| == tip.Height() + 1
    && (forall h :: h in blocks <==> 0 <= h <= tip.Height())
    && (forall h :: h in blocks ==> blocks[h] == Ancestor(tip, h))
  }

  /** The pass gets through a chain unless staking is enabled before the first tickets could mature. */
  lemma ChainIsComplete(p: Params, blocks: map<int, Block>, tip: Block)
    requires tip.WellFormed() && ChainOf(blocks, tip)
    ensures Complete(p, blocks, |blocks|) <==> (
      tip.Height() < 1 || tip.Height() < p.enabled || p.maturity <= p.enabled || p.maturity <= 1)
  {
    hide Ancestor;
    HeightsArePositive(tip);
    var first := if p.enabled < 1 then 1 else p.enabled;
    assert 1 <= first < |blocks| ==> (Workable(p, blocks, first) <==> first >= p.maturity);
    assert forall i :: 1 <= i < |blocks| && (i >= p.enabled ==> i >= p.maturity) ==> Workable(p, blocks, i);
  }

  /** Block j would mature tickets that the batch leaves out. */
  predicate EarlyTickets(p: Params, tip: Block, j: int)
    requires tip.WellFormed() && j <= tip.Height()
  {
    1 <= j && p.maturity <= j < p.enabled && TicketsIn(Ancestor(tip, j - p.maturity).stx) != []
  }

  ghost predicate NoEarlyTickets(p: Params, tip: Block, n: int)
    requires tip.WellFormed() && n <= tip.Height()
  {
    forall j :: 1 <= j <= n ==> !EarlyTickets(p, tip, j)
  }

  lemma EarlyTicketsGrow(p: Params, tip: Block, n: int)
    requires tip.WellFormed() && 1 <= n <= tip.Height()
    ensures NoEarlyTickets(p, tip, n) <==> NoEarlyTickets(p, tip, n - 1) && !EarlyTickets(p, tip, n)
  {
    hide EarlyTickets;
  }

  lemma AncestorChild(tip: Block, h: int)
    requires tip.WellFormed() && 1 <= h <= tip.Height()
    ensures var b := Ancestor(tip, h); b.Child? && b.prev == Ancestor(tip, h - 1)
  {
    AncestorTwice(tip, h, h - 1);
    HeightsArePositive(Ancestor(tip, h));
  }

  lemma BatchConnects(p: Params, blocks: map<int, Block>, tip: Block, i: nat)
    requires tip.WellFormed() && ChainOf(blocks, tip) && 1 <= i <= tip.Height() && Complete(p, blocks, |blocks|)
    ensures i >= p.enabled ==> i >= p.maturity
    ensures var b := Ancestor(tip, i);
      BatchNode(p, blocks, i) == Connected(BatchNode(p, blocks, i - 1), b, SpentIn(b.stx), RevokedIn(b.stx),
        if i >= p.enabled then TicketsIn(Ancestor(tip, i - p.maturity).stx) else [])
  {
    hide Ancestor, TicketsIn, SpentIn, RevokedIn;
    assert Workable(p, blocks, i);
  }

  lemma ReplayConnects(tip: Block, i: int, maturity: nat)
    requires tip.WellFormed() && 1 <= i <= tip.Height()
    ensures var b := Ancestor(tip, i);
      Replay(b, maturity) == Connected(Replay(Ancestor(tip, i - 1), maturity), b, SpentIn(b.stx), RevokedIn(b.stx),
        if i >= maturity then TicketsIn(Ancestor(tip, i - maturity).stx) else [])
  {
    AncestorChild(tip, i);
    if i >= maturity {
      AncestorTwice(tip, i, i - maturity);
    }
  }

  lemma SameConnected(n: Node, m: Node, b: Block, spent: seq<TxHash>, revoked: seq<TxHash>, x: seq<TxHash>, y: seq<TxHash>)
    ensures Connected(n, b, spent, revoked, x) == Connected(m, b, spent, revoked, y) <==> n == m && x == y
  {
  }

  /** One block keeps batch and database together if and only if it has no early tickets to mature. */
  lemma BatchStep(p: Params, blocks: map<int, Block>, tip: Block, i: nat)
    requires tip.WellFormed() && ChainOf(blocks, tip) && 1 <= i <= tip.Height() && Complete(p, blocks, |blocks|)
    ensures BatchNode(p, blocks, i) == Replay(Ancestor(tip, i), p.maturity) <==>
      BatchNode(p, blocks, i - 1) == Replay(Ancestor(tip, i - 1), p.maturity) && !EarlyTickets(p, tip, i)
  {
    BatchConnects(p, blocks, tip, i);
    ReplayConnects(tip, i, p.maturity);
    var b := Ancestor(tip, i);
    var matured := if i >= p.maturity then TicketsIn(Ancestor(tip, i - p.maturity).stx) else [];
    SameConnected(BatchNode(p, blocks, i - 1), Replay(Ancestor(tip, i - 1), p.maturity), b, SpentIn(b.stx),
      RevokedIn(b.stx), if i >= p.enabled then matured else [], matured);
    hide BatchNode, Replay, Ancestor, ChainOf, Complete, TicketsIn, SpentIn, RevokedIn;
  }

  /** The batch passes through the stake nodes of the database if and only if no tickets are in blocks too
      early to mature at StakeEnabledHeight. */
  lemma {:induction false} BatchRefinesReplay(p: Params, blocks: map<int, Block>, tip: Block, i: nat)
    requires tip.WellFormed() && ChainOf(blocks, tip) && i <= tip.Height() && Complete(p, blocks, |blocks|)
    ensures BatchNode(p, blocks, i) == Replay(Ancestor(tip, i), p.maturity) <==> NoEarlyTickets(p, tip, i)
  {
    if i == 0 {
      HeightsArePositive(Ancestor(tip, 0));
    } else {
      BatchRefinesReplay(p, blocks, tip, i - 1);
      BatchStep(p, blocks, tip, i);
      EarlyTicketsGrow(p, tip, i);
      hide BatchNode, Replay, Ancestor, ChainOf, NoEarlyTickets, EarlyTickets;
    }
  }

  /** Each pool value of the batch is the value that a stake database in order keeps for the block before. */
  lemma BatchRefinesIncremental(p: Params, blocks: map<int, Block>, tip: Block, required: int, values: seq<int>,
                                i: nat, c: Config, db: Db)
    requires tip.WellFormed() && ChainOf(blocks, tip) && |values| == |blocks| && Complete(p, blocks, |blocks|)
    requires ValuesOk(p, blocks, required, values)
    requires 1 <= i <= tip.Height() && i >= required && NoEarlyTickets(p, tip, i - 1)
    requires c == Config(p.maturity, p.lib) && Ok(c, db)
    ensures Ancestor(tip, i - 1) in db.pool ==>
      db.pool[Ancestor(tip, i - 1)].value == values[i] as real / ATOMS_PER_COIN
    ensures Ancestor(tip, i - 1) == db.tip ==>
      PoolInfoOf(c.lib, db.best).value == values[i] as real / ATOMS_PER_COIN
  {
    BatchRefinesReplay(p, blocks, tip, i - 1);
    assert values[i] == ValueAt(p, blocks, required, i);
  }
}
