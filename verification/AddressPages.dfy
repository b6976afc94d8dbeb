/** What a page of an address shows: which rows, in which order, as which transactions, and what the counts of a
    balance count. */
module AddressPages {
  import opened Options
  import opened AddressTable
  import opened AddressRuns
  import opened AddressHistory
  import opened AddressOutputs
  import opened BalanceCache

  // ---------------------------------------------------------------------------------------------
  // Rows

  ghost predicate Descending(at: seq<int>) {
    forall i, j :: 0 <= i < j < |at| ==> at[i] > at[j]
  }

  /** rows[at[0]], rows[at[1]], ... are the rows of the address, the newest first. */
  ghost predicate NewestFirst(rows: seq<Row>, address: string, all: seq<Row>, at: seq<int>) {
    && |at| == |all| && Descending(at)
    && (forall i :: 0 <= i < |at| ==> 0 <= at[i] < |rows| && all[i] == rows[at[i]])
    && (forall k :: 0 <= k < |rows| ==> (rows[k].address == address <==> k in at))
  }

  lemma ConsHas<T>(x: T, s: seq<T>, y: T)
    ensures y in [x] + s <==> y == x || y in s
  {
  }

  lemma NewerRow(rows: seq<Row>, address: string, all: seq<Row>, at: seq<int>, r: Row)
    requires NewestFirst(rows, address, all, at)
    ensures if r.address == address then NewestFirst(rows + [r], address, [r] + all, [|rows|] + at)
            else NewestFirst(rows + [r], address, all, at)
  {
    var n, rows' := |rows|, rows + [r];
    forall k | 0 <= k < |rows'|
      ensures rows'[k].address == address <==> (if r.address == address then k in [n] + at else k in at)
    {
      ConsHas(n, at, k);
      assert n !in at;
    }
  }

  /** The query lists exactly the rows of the address, the newest first. */
  lemma {:induction false} RowsAreNewestFirst(rows: seq<Row>, address: string) returns (at: seq<int>)
    ensures NewestFirst(rows, address, RowsOfAddress(rows, address), at)
    decreases |rows|
  {
    hide NewestFirst;
    if rows == [] {
      at := [];
      assert NewestFirst([], address, [], []) by { NoRows(address); }
    } else {
      var n := |rows| - 1;
      at := RowsAreNewestFirst(rows[..n], address);
      NewerRow(rows[..n], address, RowsOfAddress(rows[..n], address), at, rows[n]);
      assert rows == rows[..n] + [rows[n]];
      if rows[n].address == address {
        at := [n] + at;
      } else {
        assert [] + RowsOfAddress(rows[..n], address) == RowsOfAddress(rows[..n], address);
      }
    }
  }

  lemma NoRows(address: string)
    ensures NewestFirst([], address, [], [])
  {
  }

  /** A page is the part of that list from the offset on, as far as n rows and the list reach. */
  lemma PageIs(rows: seq<Row>, address: string, n: nat, offset: nat)
    ensures var all, page := RowsOfAddress(rows, address), Page(rows, address, n, offset);
      && |page| == (if offset >= |all| then 0 else if offset + n <= |all| then n else |all| - offset)
      && forall i :: 0 <= i < |page| ==> page[i] == all[offset + i]
  {
    hide RowsOfAddress;
  }

  /** So a page shows rows of the table. */
  lemma PageIsOfTable(rows: seq<Row>, address: string, n: nat, offset: nat)
    ensures forall r <- Page(rows, address, n, offset) :: r in rows && r.address == address
  {
    var at := RowsAreNewestFirst(rows, address);
    PageIs(rows, address, n, offset);
    var page := Page(rows, address, n, offset);
    hide Page, RowsOfAddress;
    forall r <- page ensures r in rows && r.address == address {
      var i :| 0 <= i < |page| && page[i] == r;
      assert at[offset + i] in at && rows[at[offset + i]] == r;
    }
  }

  // ---------------------------------------------------------------------------------------------
  // Transactions

  /** x tells that row i was received, or that it was spent. */
  ghost predicate IsEntry(rows: seq<Row>, i: int, x: AddressTx) {
    0 <= i < |rows| &&
    var r := rows[i];
    || x == Received(r.op.hash, r.value)
    || (r.spending.Some? && x == Sent(r.spending.value.txHash, r.value))
  }

  /** The transactions of a page are the funding transactions of its rows and the spending transactions of its
      spent rows, with the values of the rows. */
  lemma {:induction false} TransactionsAre(rows: seq<Row>, x: AddressTx)
    ensures x in TransactionsOf(rows) <==> exists i :: IsEntry(rows, i, x)
    decreases |rows|
  {
    if rows != [] {
      var n := |rows| - 1;
      TransactionsAre(rows[..n], x);
      if x in TransactionsOf(rows[..n]) {
        var i :| IsEntry(rows[..n], i, x);
        assert IsEntry(rows, i, x);
      } else if x in TransactionsOf(rows) {
        assert IsEntry(rows, n, x);
      }
      forall i | IsEntry(rows, i, x) ensures x in TransactionsOf(rows) {
        assert i < n ==> IsEntry(rows[..n], i, x);
      }
    }
  }

  /** They come in the order of the rows, one for each row and one more, behind it, if it is spent. */
  lemma {:induction false} TransactionsInOrder(rows: seq<Row>, i: nat)
    requires i < |rows|
    ensures var before, all, r := |TransactionsOf(rows[..i])|, TransactionsOf(rows), rows[i];
      && |TransactionsOf(rows[..0])| == 0
      && |TransactionsOf(rows[..i + 1])| == before + (if r.spending.Some? then 2 else 1) <= |all|
      && all[before] == Received(r.op.hash, r.value)
      && (r.spending.Some? ==> all[before + 1] == Sent(r.spending.value.txHash, r.value))
    decreases |rows|
  {
    var n := |rows| - 1;
    if i < n {
      assert rows[..n][..i] == rows[..i] && rows[..n][..i + 1] == rows[..i + 1];
      TransactionsInOrder(rows[..n], i);
    } else {
      assert rows[..i + 1] == rows;
    }
  }

  lemma {:induction false} TransactionsCounted(rows: seq<Row>)
    ensures |TransactionsOf(rows)| == |rows| + PageTotals(rows, true).count
  {
    if rows != [] {
      TransactionsCounted(rows[..|rows| - 1]);
    }
  }

  /** Where rows are marked rightly, every spend shown is by a transaction one of whose inputs spends an outpoint
      of the page, and every row of the page that an input spends is shown with such a spend. */
  lemma SpendsShown(t: Tables, page: seq<Row>, x: AddressTx)
    requires Marked(t) && forall r <- page :: r in t.rows
    ensures x.Sent? && x in TransactionsOf(page) ==>
      exists r <- page, v <- t.vins :: Spends(v, r.op) && x.txHash == v.txHash && x.value == r.value
    ensures forall r <- page, v <- t.vins :: Spends(v, r.op) ==>
      r.spending.Some? && Sent(r.spending.value.txHash, r.value) in TransactionsOf(page)
  {
    if x.Sent? && x in TransactionsOf(page) {
      TransactionsAre(page, x);
      var i :| IsEntry(page, i, x);
      var r := page[i];
      assert r in page && RowMarked(r, t.vins);
      assert t.vins[r.spending.value.vinDbId - 1] in t.vins;
    }
    forall r <- page, v <- t.vins | Spends(v, r.op)
      ensures r.spending.Some? && Sent(r.spending.value.txHash, r.value) in TransactionsOf(page)
    {
      assert RowMarked(r, t.vins);
      var i :| 0 <= i < |page| && page[i] == r;
      var y := Sent(r.spending.value.txHash, r.value);
      assert IsEntry(page, i, y);
      TransactionsAre(page, y);
    }
  }

  // ---------------------------------------------------------------------------------------------
  // Counts and sums

  lemma TotalsOfOne(r: Row, address: string, spent: bool)
    ensures Totals([r], address, spent) ==
      if r.address == address && r.spending.Some? == spent then CountAndSum(1, r.value) else CountAndSum(0, 0)
    ensures PageTotals([r], spent) == if r.spending.Some? == spent then CountAndSum(1, r.value) else CountAndSum(0, 0)
  {
    assert [r][..0] == [];
    assert Totals([r][..0], address, spent) == CountAndSum(0, 0) == PageTotals([r][..0], spent);
  }

  lemma {:induction false} PageTotalsJoined(a: seq<Row>, b: seq<Row>, spent: bool)
    ensures var t, ta, tb := PageTotals(a + b, spent), PageTotals(a, spent), PageTotals(b, spent);
      t.count == ta.count + tb.count && t.sum == ta.sum + tb.sum
    decreases |b|
  {
    if b == [] {
      assert a + b == a;
    } else {
      assert (a + b)[..|a + b| - 1] == a + b[..|b| - 1];
      PageTotalsJoined(a, b[..|b| - 1], spent);
    }
  }

  /** The places of the spent or unspent rows of an address. */
  ghost function PlacesOfAddress(rows: seq<Row>, address: string, spent: bool): set<int> {
    set i | 0 <= i < |rows| && rows[i].address == address && rows[i].spending.Some? == spent
  }

  lemma PlacesOfAddressLast(rows: seq<Row>, address: string, spent: bool)
    requires rows != []
    ensures var n := |rows| - 1;
      n !in PlacesOfAddress(rows[..n], address, spent) &&
      PlacesOfAddress(rows, address, spent) == PlacesOfAddress(rows[..n], address, spent) +
        if rows[n].address == address && rows[n].spending.Some? == spent then {n} else {}
  {
  }

  lemma {:induction false} TotalsCounted(rows: seq<Row>, address: string, spent: bool)
    ensures Totals(rows, address, spent).count == |PlacesOfAddress(rows, address, spent)|
  {
    if rows == [] {
      assert PlacesOfAddress(rows, address, spent) == {};
    } else {
      TotalsCounted(rows[..|rows| - 1], address, spent);
      PlacesOfAddressLast(rows, address, spent);
      hide PlacesOfAddress;
    }
  }

  /** The places of the rows of an address whose outpoint some input spends, or none does. */
  ghost function PlacesSpent(t: Tables, address: string, spent: bool): set<int> {
    set i | 0 <= i < |t.rows| && t.rows[i].address == address && (exists v <- t.vins :: Spends(v, t.rows[i].op)) == spent
  }

  /** Where rows are marked rightly, the full query counts as spent the rows of the address that some input
      spends, and as unspent those that none spends. */
  lemma FullBalanceTells(t: Tables, address: string)
    requires Marked(t)
    ensures FullBalance(t.rows, address).numSpent == |PlacesSpent(t, address, true)|
    ensures FullBalance(t.rows, address).numUnspent == |PlacesSpent(t, address, false)|
  {
    TotalsCounted(t.rows, address, true);
    TotalsCounted(t.rows, address, false);
    hide Totals;
    forall i | 0 <= i < |t.rows| ensures t.rows[i].spending.Some? == exists v <- t.vins :: Spends(v, t.rows[i].op) {
      var r := t.rows[i];
      assert r in t.rows && RowMarked(r, t.vins);
      if r.spending.Some? {
        assert t.vins[r.spending.value.vinDbId - 1] in t.vins;
      }
    }
    assert PlacesSpent(t, address, true) == PlacesOfAddress(t.rows, address, true);
    assert PlacesSpent(t, address, false) == PlacesOfAddress(t.rows, address, false);
  }

  /** Without spent rows nothing is spent, and without unspent rows nothing is unspent. */
  lemma {:induction false} NoCountNoSum(rows: seq<Row>, address: string, spent: bool)
    ensures Totals(rows, address, spent).count == 0 ==> Totals(rows, address, spent).sum == 0
  {
    if rows != [] {
      NoCountNoSum(rows[..|rows| - 1], address, spent);
    }
  }

  lemma BalanceSums(rows: seq<Row>, address: string)
    ensures var b := FullBalance(rows, address);
      && b.address == address
      && (b.numSpent == 0 ==> b.totalSpent == 0 && b.totalUnspent == TotalReceived(rows, address))
      && (b.numUnspent == 0 ==> b.totalUnspent == 0 && b.totalSpent == TotalReceived(rows, address))
  {
    NoCountNoSum(rows, address, true);
    NoCountNoSum(rows, address, false);
    ReceivedIsSpentPlusUnspent(rows, address);
  }

  /** What a page of one address is reduced to: every row counts as funding and is received, the spent ones count
      as spending, and what was not sent is unspent. */
  lemma ReducedIs(page: seq<Row>, address: string)
    requires forall i :: 0 <= i < |page| ==> page[i].address == address
    ensures var info := Reduced(address, page);
      && info.address == address && info.numFundingTxns == |page|
      && info.numSpendingTxns == |PlacesOfAddress(page, address, true)|
      && info.totalReceived == TotalReceived(page, address) == info.totalSent + info.unspent
      && info.totalSent == FullBalance(page, address).totalSpent
  {
    PageTotalsOfAddress(page, address);
    TotalsCounted(page, address, true);
    ReceivedIsSpentPlusUnspent(page, address);
  }
}
