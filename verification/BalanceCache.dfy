/** The balance cache of db/hcpg/pgblockchain.go: AddressHistory answers from the cache, from a short page, or
    from two aggregate queries over all rows. */
module BalanceCache {
  import opened Options
  import opened AddressTable
  import opened AddressRuns
  import opened AddressHistory
  import opened AddressStore

  datatype Balance = Balance(address: string, numSpent: int, numUnspent: int, totalSpent: int, totalUnspent: int)

  // ---------------------------------------------------------------------------------------------
  // Queries

  datatype CountAndSum = CountAndSum(count: nat, sum: nat)

  /** SELECT COUNT(*), SUM(value) ... WHERE address = ... AND spending_tx_row_id IS (NOT) NULL */
  function Totals(rows: seq<Row>, address: string, spent: bool): CountAndSum {
    if rows == [] then CountAndSum(0, 0)
    else
      var rest, r := Totals(rows[..|rows| - 1], address, spent), rows[|rows| - 1];
      if r.address == address && r.spending.Some? == spent then CountAndSum(rest.count + 1, rest.sum + r.value) else rest
  }

  /** What the full query gives. */
  function FullBalance(rows: seq<Row>, address: string): Balance {
    var s, u := Totals(rows, address, true), Totals(rows, address, false);
    Balance(address, s.count, u.count, s.sum, u.sum)
  }

  /** The rows of an address, the newest first. */
  function RowsOfAddress(rows: seq<Row>, address: string): seq<Row> {
    if rows == [] then []
    else
      var r := rows[|rows| - 1];
      (if r.address == address then [r] else []) + RowsOfAddress(rows[..|rows| - 1], address)
  }

  /** ... LIMIT n OFFSET offset */
  function Page(rows: seq<Row>, address: string, n: nat, offset: nat): seq<Row> {
    var all := RowsOfAddress(rows, address);
    var from := if offset < |all| then offset else |all|;
    if |all| - from <= n then all[from..] else all[from..from + n]
  }

  // ---------------------------------------------------------------------------------------------
  // ReduceAddressHistory of explorer/explorertypes.go

  datatype AddressTx = Received(txHash: TxId, value: nat) | Sent(txHash: TxId, value: nat)

  datatype AddressInfo = AddressInfo(address: string, transactions: seq<AddressTx>, numFundingTxns: nat,
                                     numSpendingTxns: nat, totalReceived: int, totalSent: int, unspent: int)

  function TransactionsOf(rows: seq<Row>): seq<AddressTx> {
    if rows == [] then []
    else
      var r := rows[|rows| - 1];
      TransactionsOf(rows[..|rows| - 1]) + [Received(r.op.hash, r.value)] +
        if r.spending.Some? then [Sent(r.spending.value.txHash, r.value)] else []
  }

  /** The spent or unspent rows, whatever their addresses. */
  function PageTotals(rows: seq<Row>, spent: bool): CountAndSum {
    if rows == [] then CountAndSum(0, 0)
    else
      var rest, r := PageTotals(rows[..|rows| - 1], spent), rows[|rows| - 1];
      if r.spending.Some? == spent then CountAndSum(rest.count + 1, rest.sum + r.value) else rest
  }

  /** On rows of one address these are the aggregates of that address, and they count every row. */
  lemma {:induction false} PageTotalsOfAddress(rows: seq<Row>, address: string)
    requires forall i :: 0 <= i < |rows| ==> rows[i].address == address
    ensures PageTotals(rows, true) == Totals(rows, address, true)
    ensures PageTotals(rows, false) == Totals(rows, address, false)
    ensures PageTotals(rows, true).count + PageTotals(rows, false).count == |rows|
  {
    if rows != [] {
      PageTotalsOfAddress(rows[..|rows| - 1], address);
    }
  }

  function Reduced(address: string, rows: seq<Row>): AddressInfo {
    var s, u := PageTotals(rows, true), PageTotals(rows, false);
    AddressInfo(address, TransactionsOf(rows), s.count + u.count, s.count, s.sum + u.sum, s.sum, u.sum)
  }

  method ReduceAddressHistory(addrHist: seq<Row>) returns (info: Option<AddressInfo>)
    ensures info == if addrHist == [] then None else Some(Reduced(addrHist[0].address, addrHist))
  {
    if |addrHist| == 0 {
      return None;
    }
    var address := addrHist[0].address;
    var received, sent := 0, 0;
    var numFundingTxns, numSpendingTxns := 0, 0;
    var transactions: seq<AddressTx> := [];
    for i := 0 to |addrHist|
      invariant AddressInfo(address, transactions, numFundingTxns, numSpendingTxns, received, sent, received - sent) ==
        Reduced(address, addrHist[..i])
    {
      assert addrHist[..i + 1][..i] == addrHist[..i];
      var addrOut := addrHist[i];
      numFundingTxns := numFundingTxns + 1;
      received := received + addrOut.value;
      transactions := transactions + [Received(addrOut.op.hash, addrOut.value)];
      if addrOut.spending.None? {
        continue;
      }
      numSpendingTxns := numSpendingTxns + 1;
      sent := sent + addrOut.value;
      transactions := transactions + [Sent(addrOut.spending.value.txHash, addrOut.value)];
    }
    assert addrHist[..|addrHist|] == addrHist;
    info := Some(AddressInfo(address, transactions, numFundingTxns, numSpendingTxns, received, sent, received - sent));
  }

  // ---------------------------------------------------------------------------------------------
  // AddressHistory, on values

  datatype Counter = Counter(validHeight: int, balance: map<string, Balance>)

  datatype Answer =
    | NoBlocks
    | BadQuery
    | NothingToReduce
    | Found(rows: seq<Row>, balance: Balance)

  /** The cache as it is consulted: emptied if it is of another height. */
  function Consulted(ctr: Counter, best: int): Counter {
    if ctr.validHeight == best then ctr else Counter(best, map[])
  }

  function History(rows: seq<Row>, best: Option<nat>, ctr: Counter, address: string, n: int, offset: int)
    : (Answer, Counter)
  {
    if best.None? then (NoBlocks, ctr)
    else
      var ctr := Consulted(ctr, best.value);
      if n < 0 || offset < 0 then (BadQuery, ctr)
      else
        var page := Page(rows, address, n, offset);
        if address in ctr.balance then (Found(page, ctr.balance[address]), ctr)
        else if page == [] then (NothingToReduce, ctr)
        else
          var b := if |page| < n then FullBalance(page, address) else FullBalance(rows, address);
          (Found(page, b), ctr.(balance := ctr.balance[address := b]))
  }

  ghost predicate CacheOk(rows: seq<Row>, ctr: Counter) {
    forall a :: a in ctr.balance ==> ctr.balance[a] == FullBalance(rows, a)
  }

  // ---------------------------------------------------------------------------------------------
  // Pages and totals

  lemma {:induction false} RowsOfAddressAre(rows: seq<Row>, address: string, i: nat)
    requires i < |RowsOfAddress(rows, address)|
    ensures RowsOfAddress(rows, address)[i].address == address
  {
    if rows != [] {
      var rest, r := rows[..|rows| - 1], rows[|rows| - 1];
      if r.address != address {
        RowsOfAddressAre(rest, address, i);
      } else if i > 0 {
        RowsOfAddressAre(rest, address, i - 1);
      }
    }
  }

  lemma {:induction false} TotalsOfJoin(a: seq<Row>, b: seq<Row>, address: string, spent: bool)
    ensures var t, ta, tb := Totals(a + b, address, spent), Totals(a, address, spent), Totals(b, address, spent);
      t.count == ta.count + tb.count && t.sum == ta.sum + tb.sum
    decreases |b|
  {
    if b == [] {
      assert a + b == a;
    } else {
      assert (a + b)[..|a + b| - 1] == a + b[..|b| - 1];
      TotalsOfJoin(a, b[..|b| - 1], address, spent);
    }
  }

  /** The rows of an address have the totals of the whole table. */
  lemma {:induction false} TotalsOfAddress(rows: seq<Row>, address: string, spent: bool)
    ensures Totals(RowsOfAddress(rows, address), address, spent) == Totals(rows, address, spent)
  {
    if rows != [] {
      var rest, r := rows[..|rows| - 1], rows[|rows| - 1];
      TotalsOfAddress(rest, address, spent);
      var head := if r.address == address then [r] else [];
      TotalsOfJoin(head, RowsOfAddress(rest, address), address, spent);
      if r.address == address {
        assert head[..0] == [];
        assert Totals(head[..0], address, spent) == CountAndSum(0, 0);
      }
    }
  }

  /** Every row of one address is spent or unspent. */
  lemma TotalsCountRows(page: seq<Row>, address: string)
    requires forall i :: 0 <= i < |page| ==> page[i].address == address
    ensures Totals(page, address, true).count + Totals(page, address, false).count == |page|
  {
    PageTotalsOfAddress(page, address);
  }

  lemma PageIsOfAddress(rows: seq<Row>, address: string, n: nat, offset: nat)
    ensures forall i :: 0 <= i < |Page(rows, address, n, offset)| ==> Page(rows, address, n, offset)[i].address == address
  {
    var all, page := RowsOfAddress(rows, address), Page(rows, address, n, offset);
    var from := if offset < |all| then offset else |all|;
    forall i | 0 <= i < |page| ensures page[i].address == address {
      RowsOfAddressAre(rows, address, from + i);
    }
  }

  /** A short page that is not empty has the totals of the table if and only if it starts at the first row. */
  lemma ShortPageExact(rows: seq<Row>, address: string, n: nat, offset: nat)
    requires 0 < |Page(rows, address, n, offset)| < n
    ensures FullBalance(Page(rows, address, n, offset), address) == FullBalance(rows, address) <==> offset == 0
  {
    var all, page := RowsOfAddress(rows, address), Page(rows, address, n, offset);
    TotalsOfAddress(rows, address, true);
    TotalsOfAddress(rows, address, false);
    PageIsOfAddress(rows, address, n, offset);
    TotalsCountRows(page, address);
    forall i | 0 <= i < |all| ensures all[i].address == address {
      RowsOfAddressAre(rows, address, i);
    }
    TotalsCountRows(all, address);
    if offset == 0 {
      assert page == all;
    } else {
      assert |page| < |all|;
    }
  }

  /** What is received is spent or unspent. */
  lemma {:induction false} ReceivedIsSpentPlusUnspent(rows: seq<Row>, address: string)
    ensures var b := FullBalance(rows, address);
      && b.numSpent + b.numUnspent == |RowsOfAddress(rows, address)|
      && b.totalSpent + b.totalUnspent == TotalReceived(rows, address)
  {
    if rows != [] {
      ReceivedIsSpentPlusUnspent(rows[..|rows| - 1], address);
    }
  }

  /** The value of all outputs to an address. */
  function TotalReceived(rows: seq<Row>, address: string): nat {
    if rows == [] then 0
    else
      var r := rows[|rows| - 1];
      TotalReceived(rows[..|rows| - 1], address) + if r.address == address then r.value else 0
  }

  // ---------------------------------------------------------------------------------------------
  // One request

  /** The page of a request starts at the first row, or there are enough rows to fill it. */
  predicate PageTells(rows: seq<Row>, address: string, n: int, offset: int) {
    offset == 0 || offset + n <= |RowsOfAddress(rows, address)|
  }

  /** A request is answered from the cache. */
  predicate Kept(best: Option<nat>, ctr: Counter, address: string) {
    best.Some? && address in Consulted(ctr, best.value).balance
  }

  /** The request gets as far as computing a balance from its page. */
  predicate Computes(rows: seq<Row>, best: Option<nat>, ctr: Counter, address: string, n: int, offset: int) {
    && best.Some? && n > 0 && 0 <= offset < |RowsOfAddress(rows, address)| && !Kept(best, ctr, address)
  }

  /** On a right cache a request is answered in agreement with the full query, and leaves the cache right, if
      and only if it computes nothing or its page is full or starts at the first row. */
  lemma HistoryExact(rows: seq<Row>, best: Option<nat>, ctr: Counter, address: string, n: int, offset: int)
    requires CacheOk(rows, ctr)
    ensures var (answer, ctr') := History(rows, best, ctr, address, n, offset);
      && (answer.NoBlocks? <==> best.None?) && (answer.BadQuery? <==> best.Some? && (n < 0 || offset < 0))
      && (answer.Found? ==> answer.rows == Page(rows, address, n, offset))
      && (answer.Found? <==> (
        n >= 0 && offset >= 0 && (Kept(best, ctr, address) || Computes(rows, best, ctr, address, n, offset))))
      && (CacheOk(rows, ctr') <==> !Computes(rows, best, ctr, address, n, offset) || PageTells(rows, address, n, offset))
      && (answer.Found? ==>
        (answer.balance == FullBalance(rows, address) <==> (
          Kept(best, ctr, address) || PageTells(rows, address, n, offset))))
  {
    hide FullBalance, RowsOfAddress;
    if best.Some? && n >= 0 && offset >= 0 {
      var c := Consulted(ctr, best.value);
      var page := Page(rows, address, n, offset);
      assert page == [] <==> n == 0 || offset >= |RowsOfAddress(rows, address)|;
      assert page != [] ==> (|page| < n <==> offset + n > |RowsOfAddress(rows, address)|);
      hide Page;
      if address !in c.balance && page != [] && |page| < n {
        ShortPageExact(rows, address, n, offset);
        var b := FullBalance(page, address);
        assert CacheOk(rows, c.(balance := c.balance[address := b])) <==> b == FullBalance(rows, address) by {
          assert address in c.balance[address := b];
        }
      }
    }
  }

  /** What was found for an address is kept, and found again until the next block; the other balances that were
      kept at this height stay. */
  lemma HistoryRemembers(rows: seq<Row>, best: nat, ctr: Counter, address: string, n: int, offset: int, n': nat, offset': nat)
    ensures var (answer, ctr') := History(rows, Some(best), ctr, address, n, offset);
      && ctr'.validHeight == best
      && (forall a :: a != address ==>
        (a in ctr'.balance <==> ctr.validHeight == best && a in ctr.balance) &&
        (a in ctr'.balance ==> ctr'.balance[a] == ctr.balance[a]))
      && (answer.Found? ==>
        History(rows, Some(best), ctr', address, n', offset') == (Found(Page(rows, address, n', offset'), answer.balance), ctr'))
  {
    hide Page, FullBalance;
  }

  // ---------------------------------------------------------------------------------------------
  // Whole runs

  datatype Call = StoreBlock(height: nat, after: seq<Row>) | AddressHistory(address: string, n: int, offset: int)

  datatype Store = Store(rows: seq<Row>, best: Option<nat>, ctr: Counter)

  function BestAfter(best: Option<nat>, height: nat): Option<nat> {
    if best.Some? && best.value > height then best else Some(height)
  }

  function Step(s: Store, call: Call): (Store, Answer) {
    match call
    case StoreBlock(h, after) =>
      (Store(after, BestAfter(s.best, h), Counter(h, map[])), NoBlocks)
    case AddressHistory(a, n, offset) =>
      var (answer, ctr) := History(s.rows, s.best, s.ctr, a, n, offset);
      (s.(ctr := ctr), answer)
  }

  function RunCalls(s: Store, calls: seq<Call>): Store
    decreases |calls|
  {
    if calls == [] then s else RunCalls(Step(s, calls[0]).0, calls[1..])
  }

  /** Over any run of stored blocks, whatever they do to the rows, and requests from offset 0, every answer
      agrees with the full query over the rows of the moment. */
  lemma {:induction false} CacheAgreesWithFullQuery(s: Store, calls: seq<Call>, address: string, n: int)
    requires CacheOk(s.rows, s.ctr)
    requires forall call <- calls :: call.AddressHistory? ==> call.offset == 0
    ensures var s' := RunCalls(s, calls);
      var answer := Step(s', AddressHistory(address, n, 0)).1;
      CacheOk(s'.rows, s'.ctr) && (answer.Found? ==> answer.balance == FullBalance(s'.rows, address))
    decreases |calls|
  {
    hide History, FullBalance, Page, RowsOfAddress;
    if calls == [] {
      HistoryExact(s.rows, s.best, s.ctr, address, n, 0);
    } else {
      var call := calls[0];
      assert call in calls && forall x <- calls[1..] :: x in calls;
      if call.AddressHistory? {
        HistoryExact(s.rows, s.best, s.ctr, call.address, call.n, call.offset);
      }
      CacheAgreesWithFullQuery(Step(s, call).0, calls[1..], address, n);
    }
  }

  /** The cache is right before every call of a run and after it. */
  ghost predicate RightThroughout(s: Store, calls: seq<Call>)
    decreases |calls|
  {
    CacheOk(s.rows, s.ctr) && (calls != [] ==> RightThroughout(Step(s, calls[0]).0, calls[1..]))
  }

  /** No request of a run computes a balance from a later page that is not full. */
  ghost predicate PagesTell(s: Store, calls: seq<Call>)
    decreases |calls|
  {
    calls != [] ==>
      && (calls[0].AddressHistory? ==>
        var a, n, offset := calls[0].address, calls[0].n, calls[0].offset;
        Computes(s.rows, s.best, s.ctr, a, n, offset) ==> PageTells(s.rows, a, n, offset))
      && PagesTell(Step(s, calls[0]).0, calls[1..])
  }

  /** The cache stays right throughout a run if and only if no request computes a balance from a later page
      that is not full. */
  lemma {:induction false} RunIsRightExactly(s: Store, calls: seq<Call>)
    requires CacheOk(s.rows, s.ctr)
    ensures RightThroughout(s, calls) <==> PagesTell(s, calls)
    decreases |calls|
  {
    hide History, FullBalance, Page, RowsOfAddress, Computes, PageTells;
    if calls != [] {
      var next := Step(s, calls[0]).0;
      if calls[0].AddressHistory? {
        HistoryExact(s.rows, s.best, s.ctr, calls[0].address, calls[0].n, calls[0].offset);
      }
      if CacheOk(next.rows, next.ctr) {
        RunIsRightExactly(next, calls[1..]);
      }
    }
  }

  /** A later page that is short leaves a wrong balance in the cache, which a request from offset 0 then gets. */
  lemma LaterPageMisleads(rows: seq<Row>, best: nat, ctr: Counter, address: string, n: nat, offset: nat, n': nat)
    requires CacheOk(rows, ctr) && address !in Consulted(ctr, best).balance
    requires offset > 0 && 0 < |Page(rows, address, n, offset)| < n
    ensures var ctr' := History(rows, Some(best), ctr, address, n, offset).1;
      var answer := History(rows, Some(best), ctr', address, n', 0).0;
      answer.Found? && answer.balance != FullBalance(rows, address)
  {
    ShortPageExact(rows, address, n, offset);
  }

  // ---------------------------------------------------------------------------------------------
  // The methods

  /** SELECT ... ORDER BY height DESC LIMIT 1 */
  function BestOf(heights: seq<nat>): Option<nat> {
    if heights == [] then None else BestAfter(BestOf(heights[..|heights| - 1]), heights[|heights| - 1])
  }

  lemma {:induction false} BestIsHighest(heights: seq<nat>)
    ensures IsBest(heights, BestOf(heights))
  {
    if heights != [] {
      var n := |heights| - 1;
      BestIsHighest(heights[..n]);
      assert heights == heights[..n] + [heights[n]];
    }
  }

  ghost predicate IsBest(heights: seq<nat>, best: Option<nat>) {
    match best
    case None => heights == []
    case Some(h) => h in heights && forall k <- heights :: k <= h
  }

  class HistoryDb {
    const tables: ChainDB
    /** The heights in the blocks table. */
    var heights: seq<nat>
    var validHeight: int
    var balance: map<string, Balance>

    ghost function Cache(): Counter
      reads this
    {
      Counter(validHeight, balance)
    }

    /** The rows, the best height and the cache, as the runs see them. */
    ghost function State(): Store
      reads this, tables
    {
      Store(tables.addresses, BestOf(heights), Cache())
    }

    constructor (tables: ChainDB)
      ensures this.tables == tables && heights == [] && State() == Store(tables.addresses, None, Counter(0, map[]))
    {
      this.tables := tables;
      heights, validHeight, balance := [], 0, map[];
    }

    /** HeightDB */
    method HeightDB() returns (best: Option<nat>)
      ensures best == BestOf(heights) && IsBest(heights, best)
    {
      BestIsHighest(heights);
      best := BestOf(heights);
    }

    /** RetrieveAddressSpentUnspent */
    method RetrieveAddressSpentUnspent(address: string)
      returns (numSpent: int, numUnspent: int, totalSpent: int, totalUnspent: int)
      ensures Balance(address, numSpent, numUnspent, totalSpent, totalUnspent) == FullBalance(tables.addresses, address)
    {
      var unspent := Totals(tables.addresses, address, false);
      numUnspent, totalUnspent := unspent.count, unspent.sum;
      var spent := Totals(tables.addresses, address, true);
      numSpent, totalSpent := spent.count, spent.sum;
    }

    method AddressHistory(address: string, n: int, offset: int) returns (answer: Answer)
      modifies this`validHeight, this`balance
      ensures (answer, Cache()) == History(tables.addresses, BestOf(heights), old(Cache()), address, n, offset)
      ensures (State(), answer) == Step(old(State()), Call.AddressHistory(address, n, offset))
    {
      hide Page, Totals, TransactionsOf;
      var bestBlock := HeightDB();
      if bestBlock.None? {
        answer := NoBlocks;
        return;
      }
      var balanceInfo := Balance("", 0, 0, 0, 0);
      var cached := false;
      if validHeight == bestBlock.value {
        cached := address in balance;
        if cached {
          balanceInfo := balance[address];
        }
      } else {
        balance := map[];
        validHeight := bestBlock.value;
      }
      if n < 0 || offset < 0 {
        answer := BadQuery;
        return;
      }
      var addressRows := Page(tables.addresses, address, n, offset);
      PageIsOfAddress(tables.addresses, address, n, offset);
      PageTotalsOfAddress(addressRows, address);
      if !cached {
        assert addressRows != [] ==> addressRows[0].address == address;
        var addrInfo := ReduceAddressHistory(addressRows);
        if addrInfo.None? {
          answer := NothingToReduce;
          return;
        }
        if addrInfo.value.numFundingTxns < n {
          balanceInfo := Balance(address, addrInfo.value.numSpendingTxns,
            addrInfo.value.numFundingTxns - addrInfo.value.numSpendingTxns, addrInfo.value.totalSent,
            addrInfo.value.unspent);
        } else {
          var numSpent, numUnspent, totalSpent, totalUnspent := RetrieveAddressSpentUnspent(address);
          balanceInfo := Balance(address, numSpent, numUnspent, totalSpent, totalUnspent);
        }
        balance := balance[address := balanceInfo];
      }
      answer := Found(addressRows, balanceInfo);
    }

    /** StoreBlock, as far as the address rows and the cache go, one tree after the other. */
    method StoreBlock(height: nat, regular: seq<Tx>, stake: seq<Tx>, updateAddressesSpendingInfo: bool)
      returns (ghost first: Tree, ghost second: Tree)
      modifies this, tables
      ensures first.Valid() && second.Valid() && first.txs == regular && second.txs == stake
      ensures tables.State() == ExecAll(old(tables.State()),
        if updateAddressesSpendingInfo then first.Ops() + second.Ops() else first.StoreOps() + second.StoreOps())
      ensures updateAddressesSpendingInfo ==> IdsRight(old(tables.vins), first.Ops() + second.Ops())
      ensures updateAddressesSpendingInfo ==>
        BlockStored(old(tables.State()), StoredBlock(first, second, first.Ops() + second.Ops()))
      ensures heights == old(heights) + [height] && Cache() == Counter(height, map[])
      ensures State() == Step(old(State()), Call.StoreBlock(height, tables.addresses)).0
    {
      hide ExecAll, IdsRight, AllVinsOf, Interleaving;
      var numVins, numVouts, numAddresses;
      numVins, numVouts, numAddresses, first := tables.StoreTxns(regular, updateAddressesSpendingInfo);
      numVins, numVouts, numAddresses, second := tables.StoreTxns(stake, updateAddressesSpendingInfo);
      ExecTwice(old(tables.State()), first.Ops(), second.Ops());
      ExecTwice(old(tables.State()), first.StoreOps(), second.StoreOps());
      SequentialInterleaves(first.Ops(), second.Ops());
      assert (heights + [height])[..|heights|] == heights;
      heights := heights + [height];
      validHeight := height;
      balance := map[];
    }
  }
}
