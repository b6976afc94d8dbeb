/** Whole runs of the stake database's chain monitor: what holds after any stream of notices that the node
    may send. */
module StakeRuns {
  import opened Options
  import opened StakeChain
  import opened StakeDb
  import opened StakeStore
  import opened StakeMonitor

  /** A notice, with the main chain that the node serves while the notice is handled. */
  datatype Event = BlockConnected(block: Block, main: Block) | Reorganized(data: ReorgData)

  function Handle(c: Config, m: Mon, e: Event): (Mon, Status) {
    match e
    case BlockConnected(b, main) => HandleBlock(c, m, b, main)
    case Reorganized(d) => (HandleReorg(m, d), Fine)
  }

  /** A run, up to the first panic. An error is only logged. */
  function Run(c: Config, m: Mon, events: seq<Event>): (Mon, Status)
    decreases |events|
  {
    if events == [] then (m, Fine)
    else
      var (m', status) := Handle(c, m, events[0]);
      if status == Panicked then (m', Panicked) else Run(c, m', events[1..])
  }

  // ---------------------------------------------------------------------------------------------
  // What the notices announce

  /** The chain announced so far: its tip, the reorganisation that was announced and not yet completed, and
      the blocks of the new branch so far. */
  datatype Announced = Announced(tip: Block, pending: Option<ReorgData>, branch: seq<Block>)

  function Follow(a: Announced, e: Event): Announced {
    match e
    case Reorganized(d) => if a.pending.Some? then a else a.(pending := Some(d))
    case BlockConnected(b, _) =>
      if a.pending.None? then (if b.Height() <= a.tip.Height() then a else a.(tip := b))
      else if b == a.pending.value.newChainHead then Announced(b, None, [])
      else a.(branch := a.branch + [b])
  }

  function FollowAll(a: Announced, events: seq<Event>): Announced
    decreases |events|
  {
    if events == [] then a else FollowAll(Follow(a, events[0]), events[1..])
  }

  /** What a node may say next. Outside a reorganisation: a child of the tip, or a block that the chain has
      already. Within one: the next block of a branch that starts on the chain. A second reorganisation
      notice may come at any time and say anything. */
  ghost predicate Allowed(c: Config, a: Announced, e: Event)
    requires a.tip.WellFormed()
  {
    match e
    case Reorganized(d) => a.pending.None? ==> d.newChainHeight == d.newChainHead.Height()
    case BlockConnected(b, main) =>
      && b.WellFormed()
      && if a.pending.None? then
           && Serves(c, main, b)
           && ((b.Child? && b.prev == a.tip) || OnChain(b, a.tip))
         else
           && b.Child?
           && (if a.branch == [] then OnChain(b.prev, a.tip) else b.prev == a.branch[|a.branch| - 1])
           && (b == a.pending.value.newChainHead ==> forall s <- a.branch + [b] :: Serves(c, main, s))
  }

  ghost predicate AllAllowed(c: Config, a: Announced, events: seq<Event>)
    decreases |events|
  {
    events != [] ==>
      a.tip.WellFormed() && Allowed(c, a, events[0]) && AllAllowed(c, Follow(a, events[0]), events[1..])
  }

  /** The monitor has done what was announced. */
  ghost predicate Agrees(c: Config, m: Mon, a: Announced) {
    && Ok(c, m.db)
    && m.db.tip == a.tip
    && m.side == a.branch
    && m.reorganizing == a.pending.Some?
    && (m.reorganizing ==> m.reorg == a.pending && a.pending.value.newChainHeight == a.pending.value.newChainHead.Height())
    && (!m.reorganizing ==> m.side == [])
    && (m.side != [] ==> m.side[0].Child? && m.side[0].WellFormed() && OnChain(m.side[0].prev, a.tip))
    && (m.side != [] ==> Branch(m.side[0].prev, m.side))
  }

  // ---------------------------------------------------------------------------------------------
  // One notice

  lemma {:induction false} BranchHeights(base: Block, side: seq<Block>, i: nat)
    requires Branch(base, side) && i < |side|
    ensures side[i].Height() == base.Height() + 1 + i
  {
    if i > 0 {
      BranchHeights(base, side, i - 1);
    }
  }

  /** Rolling back to the root of a branch and connecting the branch. */
  lemma SwitchOver(c: Config, db: Db, side: seq<Block>, main: Block)
    requires c.maturity >= 1 && Ok(c, db) && side != [] && side[0].Child?
    requires side[0].WellFormed() && OnChain(side[0].prev, db.tip) && Branch(side[0].prev, side)
    requires forall s <- side :: Serves(c, main, s)
    ensures var s := Switch(c, db, side, main);
      var head := side[|side| - 1];
      s.status == Fine && Ok(c, s.db) && s.db.tip == head && s.head == Some(head) && s.height == head.Height()
  {
    hide BlocksOk, PoolOk, Serves, Replay, TicketsIn, SpentIn, RevokedIn;
    HeightsArePositive(side[0].prev);
    var base := side[0].prev;
    var count := db.tip.Height() - base.Height();
    DisconnectBack(c, db, count);
    var back := DisconnectN(db, count).0;
    assert back.tip == base;
    ConnectBranch(c, back, side, main);
  }

  /** The switch fails only over a height that the notice gets wrong: the announced head is reached, but not
      at the announced height, and the handler panics. */
  lemma HeadHeightExact(c: Config, m: Mon, b: Block, main: Block)
    requires c.maturity >= 1 && Ok(c, m.db) && m.reorganizing && m.reorg.Some? && b == m.reorg.value.newChainHead
    requires var side := m.side + [b];
      && side[0].Child? && side[0].WellFormed() && OnChain(side[0].prev, m.db.tip) && Branch(side[0].prev, side)
      && forall s <- side :: Serves(c, main, s)
    ensures var (m', status) := HandleBlock(c, m, b, main);
      && m'.db.tip == b && m'.db.best == Replay(b, c.maturity)
      && status == (if m.reorg.value.newChainHeight == b.Height() then Fine else Panicked)
  {
    SwitchOver(c, m.db, m.side + [b], main);
    hide Switch, OnChain, Serves, BlocksOk, PoolOk, Replay;
  }

  /** A branch that starts above the tip is not connected at all: the handler panics. */
  lemma GapPanics(c: Config, m: Mon, b: Block, main: Block)
    requires Ok(c, m.db) && m.reorganizing && m.reorg.Some? && b == m.reorg.value.newChainHead
    requires var first := (m.side + [b])[0]; first.Child? && first.WellFormed() && first.prev.Height() > m.db.tip.Height()
    ensures HandleBlock(c, m, b, main) == (m.(side := m.side + [b]), Panicked)
  {
    hide BlocksOk, PoolOk;
    var side := m.side + [b];
    assert DisconnectN(m.db, m.db.best.Height() - (side[0].Height() - 1)) == (m.db, Fine);
    assert Switch(c, m.db, side, main) == Switched(m.db, Panicked, 0, None);
  }

  /** Some block is at hand for every maturing height of the branch, be it the right one or not. */
  ghost predicate AllAvailable(c: Config, main: Block, side: seq<Block>) {
    main.WellFormed() && forall s <- side :: s.Height() - c.maturity <= main.Height()
  }

  lemma StrayStep(c: Config, db: Db, b: Block, main: Block)
    requires c.maturity >= 1 && b.WellFormed() && b.Child? && main.WellFormed() && b.Height() - c.maturity <= main.Height()
    requires db.best.Height() == b.prev.Height() && db.best != Replay(b.prev, c.maturity)
    ensures var (db', status) := Connect(c, db, b, main);
      status == Fine && db'.best.Height() == b.Height() && db'.best != Replay(b, c.maturity)
  {
    ReplayOfChild(b, c.maturity);
    hide Replay, Ancestor, BlocksAfter, PoolInfoOf, TicketsIn, SpentIn, RevokedIn, Served, Connect;
    ConnectIs(c, db, b, main);
  }

  lemma {:induction false} ConnectStray(c: Config, db: Db, base: Block, side: seq<Block>, main: Block)
    requires c.maturity >= 1 && base.WellFormed() && Branch(base, side) && AllAvailable(c, main, side)
    requires db.best.Height() == base.Height() && db.best != Replay(base, c.maturity)
    ensures var (db', status) := ConnectAll(c, db, side, main);
      var last := if side == [] then base else side[|side| - 1];
      && status == Fine && db'.best.Height() == last.Height() && last.WellFormed()
      && db'.best != Replay(last, c.maturity)
    decreases |side|
  {
    hide Connect, Replay, Block.WellFormed, Block.Height, Node.Height;
    if side != [] {
      assert side[0] in side;
      StrayStep(c, db, side[0], main);
      assert Branch(side[0], side[1..]);
      ConnectStray(c, Connect(c, db, side[0], main).0, side[0], side[1..], main);
    }
  }

  lemma ReplaysDiffer(a: Block, b: Block, maturity: nat)
    requires a.WellFormed() && b.WellFormed() && a.Height() == b.Height() >= 1 && a != b
    ensures Replay(a, maturity) != Replay(b, maturity)
  {
    HeightsArePositive(a);
    HeightsArePositive(b);
  }

  lemma SwitchStray(c: Config, db: Db, side: seq<Block>, main: Block)
    requires c.maturity >= 1 && Ok(c, db) && side != [] && side[0].Child? && side[0].WellFormed()
    requires Branch(side[0].prev, side) && 1 <= side[0].prev.Height() <= db.tip.Height()
    requires AllAvailable(c, main, side) && !OnChain(side[0].prev, db.tip)
    ensures var s := Switch(c, db, side, main);
      var head := side[|side| - 1];
      && s.status == Fine && s.head == Some(head) && s.height == head.Height() && head.WellFormed()
      && s.db.best != Replay(head, c.maturity)
  {
    var base := side[0].prev;
    var count := db.tip.Height() - base.Height();
    DisconnectBack(c, db, count);
    var back := DisconnectN(db, count).0;
    assert base != back.tip;
    ReplaysDiffer(base, back.tip, c.maturity);
    hide BlocksOk, PoolOk, Replay, Ancestor, OnChain, AllAvailable, Block.WellFormed, DisconnectN, ConnectAll, Branch;
    ConnectStray(c, back, base, side, main);
  }

  /** A switch always reports the head of its branch, but leaves the replay of that head if and only if the
      branch starts on the chain: where it starts is compared by height alone. */
  lemma SwitchExact(c: Config, db: Db, side: seq<Block>, main: Block)
    requires c.maturity >= 1 && Ok(c, db) && side != [] && side[0].Child? && side[0].WellFormed()
    requires Branch(side[0].prev, side) && 1 <= side[0].prev.Height() <= db.tip.Height()
    requires forall s <- side :: Serves(c, main, s)
    ensures var s := Switch(c, db, side, main);
      var head := side[|side| - 1];
      && s.status == Fine && s.head == Some(head) && s.height == head.Height() && head.WellFormed()
      && (s.db.best == Replay(head, c.maturity) <==> OnChain(side[0].prev, db.tip))
  {
    hide Switch, OnChain, BlocksOk, PoolOk, Replay;
    if OnChain(side[0].prev, db.tip) {
      SwitchOver(c, db, side, main);
    } else {
      ServedAreAvailable(c, main, side);
      SwitchStray(c, db, side, main);
    }
  }

  lemma ServedAreAvailable(c: Config, main: Block, side: seq<Block>)
    requires side != [] && forall s <- side :: Serves(c, main, s)
    ensures AllAvailable(c, main, side)
  {
    assert side[0] in side;
    forall s <- side ensures s.Height() - c.maturity <= main.Height() {
      assert Serves(c, main, s);
      HeightsArePositive(s);
    }
  }

  lemma BlockStep(c: Config, m: Mon, a: Announced, b: Block, main: Block)
    requires c.maturity >= 1 && Agrees(c, m, a) && Allowed(c, a, BlockConnected(b, main))
    requires a.pending.None?
    ensures var (m', status) := HandleBlock(c, m, b, main);
      status != Panicked && Agrees(c, m', Follow(a, BlockConnected(b, main)))
  {
    hide BlocksOk, PoolOk, Connect, Ancestor, Replay;
    HeightsArePositive(b);
    if b.Child? && b.prev == a.tip {
      ConnectChild(c, m.db, b, main);
    } else {
      ConnectOld(c, m.db, b, main);
    }
  }

  lemma BufferStep(c: Config, m: Mon, a: Announced, b: Block, main: Block)
    requires Agrees(c, m, a) && Allowed(c, a, BlockConnected(b, main))
    requires a.pending.Some? && b != a.pending.value.newChainHead
    ensures var (m', status) := HandleBlock(c, m, b, main);
      status == Fine && m'.db == m.db && Agrees(c, m', Follow(a, BlockConnected(b, main)))
  {
    hide BlocksOk, PoolOk, Connect, Ancestor, Replay, Serves, OnChain;
  }

  lemma HeadStep(c: Config, m: Mon, a: Announced, b: Block, main: Block)
    requires c.maturity >= 1 && Agrees(c, m, a) && Allowed(c, a, BlockConnected(b, main))
    requires a.pending.Some? && b == a.pending.value.newChainHead
    ensures var (m', status) := HandleBlock(c, m, b, main);
      status == Fine && m'.side == [] && !m'.reorganizing &&
      Agrees(c, m', Follow(a, BlockConnected(b, main)))
  {
    hide BlocksOk, PoolOk, Connect, Ancestor, Replay, Serves, OnChain, Switch;
    var side := m.side + [b];
    SwitchOver(c, m.db, side, main);
  }

  lemma Step(c: Config, m: Mon, a: Announced, e: Event)
    requires c.maturity >= 1 && Agrees(c, m, a) && Allowed(c, a, e)
    ensures var (m', status) := Handle(c, m, e);
      status != Panicked && Agrees(c, m', Follow(a, e))
  {
    if e.BlockConnected? {
      hide Agrees, Allowed, HandleBlock;
      if a.pending.None? {
        BlockStep(c, m, a, e.block, e.main);
      } else if e.block == a.pending.value.newChainHead {
        HeadStep(c, m, a, e.block, e.main);
      } else {
        BufferStep(c, m, a, e.block, e.main);
      }
    }
  }

  // ---------------------------------------------------------------------------------------------
  // Whole runs

  /** No panic is reachable, and the monitor does what was announced. */
  lemma {:induction false} RunFollows(c: Config, m: Mon, a: Announced, events: seq<Event>)
    requires c.maturity >= 1 && Agrees(c, m, a) && AllAllowed(c, a, events)
    ensures var (m', status) := Run(c, m, events);
      status == Fine && Agrees(c, m', FollowAll(a, events))
    decreases |events|
  {
    hide Agrees, Allowed, Handle, Follow;
    if events != [] {
      Step(c, m, a, events[0]);
      RunFollows(c, Handle(c, m, events[0]).0, Follow(a, events[0]), events[1..]);
    }
  }

  /** From the first start on, after any notices a node may send: no panic, the stake node is the replay of
      the announced chain, the database records its tip, every pool info entry is that of its own block's
      ancestry, and nothing is buffered unless a reorganisation is in progress. */
  lemma TicketStateEqualsReplay(c: Config, genesis: Block, events: seq<Event>)
    requires c.maturity >= 1 && genesis.Genesis?
    requires AllAllowed(c, Announced(genesis, None, []), events)
    ensures var start := Mon(Db(genesis, Initial, map[], map[]), [], false, None);
      var (m, status) := Run(c, start, events);
      var chain := FollowAll(Announced(genesis, None, []), events);
      && status == Fine
      && m.db.tip == chain.tip && chain.tip.WellFormed()
      && m.db.best == Replay(chain.tip, c.maturity)
      && (forall b :: b in m.db.pool ==> b.WellFormed() && m.db.pool[b] == PoolInfoOf(c.lib, Replay(b, c.maturity)))
      && m.reorganizing == chain.pending.Some? && m.side == chain.branch
      && (!m.reorganizing ==> m.side == [])
  {
    var start := Mon(Db(genesis, Initial, map[], map[]), [], false, None);
    assert Agrees(c, start, Announced(genesis, None, []));
    hide Run, FollowAll, AllAllowed, PoolInfoOf, Replay;
    RunFollows(c, start, Announced(genesis, None, []), events);
  }

  lemma {:induction false} RunTwice(c: Config, m: Mon, first: seq<Event>, rest: seq<Event>)
    requires Run(c, m, first).1 == Fine
    ensures Run(c, m, first + rest) == Run(c, Run(c, m, first).0, rest)
    decreases |first|
  {
    hide Handle;
    if first == [] {
      assert first + rest == rest;
    } else {
      assert (first + rest)[1..] == first[1..] + rest;
      RunTwice(c, Handle(c, m, first[0]).0, first[1..], rest);
    }
  }

  /** A notice that arrives while a reorganisation is in progress, whatever it says, changes nothing in the
      run from there on. */
  lemma OverlapChangesNothing(c: Config, m: Mon, before: seq<Event>, d: ReorgData, later: seq<Event>)
    requires Run(c, m, before).1 == Fine && Run(c, m, before).0.reorganizing
    ensures Run(c, m, before + [Reorganized(d)] + later) == Run(c, m, before + later)
  {
    var there := Run(c, m, before).0;
    RunTwice(c, m, before, later);
    RunTwice(c, m, before, [Reorganized(d)] + later);
    assert before + [Reorganized(d)] + later == before + ([Reorganized(d)] + later);
    assert ([Reorganized(d)] + later)[1..] == later;
  }

  /** The notices for the blocks of a branch, each with the main chain served at the time. */
  function BlockEvents(branch: seq<Block>, mains: seq<Block>): seq<Event>
    requires |branch| == |mains|
  {
    if branch == [] then []
    else [BlockConnected(branch[0], mains[0])] + BlockEvents(branch[1..], mains[1..])
  }

  lemma {:induction false} BranchAllowed(c: Config, a: Announced, branch: seq<Block>, mains: seq<Block>, k: nat)
    requires |branch| == |mains| > k && branch[0].Child? && Branch(branch[0].prev, branch)
    requires a.tip.WellFormed() && OnChain(branch[0].prev, a.tip)
    requires a.pending.Some? && a.branch == branch[..k]
    requires a.pending.value.newChainHead == branch[|branch| - 1]
    requires forall s <- branch :: Serves(c, mains[|mains| - 1], s)
    ensures AllAllowed(c, a, BlockEvents(branch[k..], mains[k..]))
    ensures FollowAll(a, BlockEvents(branch[k..], mains[k..])) == Announced(branch[|branch| - 1], None, [])
    decreases |branch| - k
  {
    hide OnChain, Serves;
    var base := branch[0].prev;
    BranchHeights(base, branch, k);
    BranchHeights(base, branch, |branch| - 1);
    assert branch[k..][1..] == branch[k + 1..] && mains[k..][1..] == mains[k + 1..];
    assert branch[..k] + [branch[k]] == branch[..k + 1];
    var e := BlockConnected(branch[k], mains[k]);
    var rest := BlockEvents(branch[k + 1..], mains[k + 1..]);
    assert BlockEvents(branch[k..], mains[k..])[1..] == rest;
    assert branch[k].Child? && branch[k].WellFormed();
    if branch[k] == a.pending.value.newChainHead {
      assert k == |branch| - 1 && a.branch + [branch[k]] == branch;
    }
    assert k > 0 ==> branch[k].prev == a.branch[k - 1];
    if k + 1 < |branch| {
      BranchAllowed(c, Follow(a, e), branch, mains, k + 1);
    }
  }

  /** If the blocks after an accepted notice form a branch from a block of the chain to the announced head,
      and the node then serves the blocks whose tickets mature in the branch, the database ends on that
      branch, without a panic and with nothing left in the buffer. */
  lemma ReorgEndsOnBranch(c: Config, m: Mon, a: Announced, d: ReorgData, branch: seq<Block>, mains: seq<Block>)
    requires c.maturity >= 1 && Agrees(c, m, a) && a.pending.None?
    requires |branch| == |mains| > 0 && branch[0].Child? && Branch(branch[0].prev, branch)
    requires OnChain(branch[0].prev, a.tip)
    requires d.newChainHead == branch[|branch| - 1] && d.newChainHeight == d.newChainHead.Height()
    requires forall s <- branch :: Serves(c, mains[|mains| - 1], s)
    ensures var (m', status) := Run(c, m, [Reorganized(d)] + BlockEvents(branch, mains));
      && status == Fine && !m'.reorganizing && m'.side == []
      && m'.db.tip == d.newChainHead && Ok(c, m'.db)
  {
    hide OnChain, Serves, BlocksOk, PoolOk;
    var e := Reorganized(d);
    var blocks := BlockEvents(branch, mains);
    assert m.side == [] && a.branch == [];
    assert branch[0..] == branch && mains[0..] == mains && branch[..0] == [];
    var a' := Follow(a, e);
    BranchAllowed(c, a', branch, mains, 0);
    assert ([e] + blocks)[1..] == blocks;
    RunFollows(c, m, a, [e] + blocks);
  }

  /** Blocks that extend the chain one by one, each with whatever main chain the node serves at the time. A
      process asks the node only for tickets in blocks from before its start: once it has connected `maturity`
      blocks itself the node's chain makes no difference. */
  lemma {:induction false} ExtendsFromCache(c: Config, m: Mon, lo: nat, branch: seq<Block>, mains: seq<Block>)
    requires c.maturity >= 1 && Ok(c, m.db) && !m.reorganizing && CachedFrom(c, m.db, lo) && lo <= m.db.tip.Height() + 1
    requires |branch| == |mains| && Branch(m.db.tip, branch)
    requires forall k :: 0 <= k < |branch| && branch[k].Height() - c.maturity < lo ==> Serves(c, mains[k], branch[k])
    ensures var (m', status) := Run(c, m, BlockEvents(branch, mains));
      && status == Fine && Ok(c, m'.db) && CachedFrom(c, m'.db, lo)
      && m'.db.tip == if branch == [] then m.db.tip else branch[|branch| - 1]
    decreases |branch|
  {
    hide Serves, Ok, CachedFrom, Connect;
    if branch != [] {
      assert m.db.tip == branch[0].prev && branch[0].Height() == m.db.tip.Height() + 1;
      ConnectFromCache(c, m.db, lo, branch[0], mains[0]);
      var e, rest := BlockConnected(branch[0], mains[0]), BlockEvents(branch[1..], mains[1..]);
      assert ([e] + rest)[0] == e && ([e] + rest)[1..] == rest;
      var m' := Handle(c, m, e).0;
      assert Branch(m'.db.tip, branch[1..]);
      ExtendsFromCache(c, m', lo, branch[1..], mains[1..]);
    }
  }
}
