/** The methods of db/hcpg/pgblockchain.go and db/hcpg/queries.go that write the vins and addresses tables. */
module AddressStore {
  import opened Options
  import opened AddressTable
  import opened AddressRuns

  function CountOf(rows: seq<Row>, op: Outpoint): nat {
    if rows == [] then 0 else CountOf(rows[..|rows| - 1], op) + if rows[|rows| - 1].op == op then 1 else 0
  }

  /** The places of the rows of an outpoint. */
  ghost function PlacesOf(rows: seq<Row>, op: Outpoint): set<int> {
    set i | 0 <= i < |rows| && rows[i].op == op
  }

  lemma PlacesOfLast(rows: seq<Row>, op: Outpoint)
    requires rows != []
    ensures var n := |rows| - 1;
      n !in PlacesOf(rows[..n], op) &&
      PlacesOf(rows, op) == PlacesOf(rows[..n], op) + if rows[n].op == op then {n} else {}
  {
  }

  lemma {:induction false} CountOfIs(rows: seq<Row>, op: Outpoint)
    ensures CountOf(rows, op) == |PlacesOf(rows, op)|
  {
    if rows == [] {
      assert PlacesOf(rows, op) == {};
    } else {
      CountOfIs(rows[..|rows| - 1], op);
      PlacesOfLast(rows, op);
      hide PlacesOf;
    }
  }

  function Total(ids: seq<seq<nat>>): nat {
    if ids == [] then 0 else Total(ids[..|ids| - 1]) + |ids[|ids| - 1]|
  }

  /** The ids count on from base, list after list. */
  ghost predicate CountOn(ids: seq<seq<nat>>, base: nat) {
    ids != [] ==>
      var rest, last := ids[..|ids| - 1], ids[|ids| - 1];
      CountOn(rest, base) && forall j :: 0 <= j < |last| ==> last[j] == base + Total(rest) + j + 1
  }

  ghost predicate AllMarks(ops: seq<Op>) {
    forall i :: 0 <= i < |ops| ==> ops[i].Mark?
  }

  /** How many rows the marks affect in all. */
  ghost function Affected(rows: seq<Row>, marks: seq<Op>): nat
    requires AllMarks(marks)
  {
    if marks == [] then 0
    else Affected(rows, marks[..|marks| - 1]) + CountOf(rows, marks[|marks| - 1].vin.prev)
  }

  /** Marking moves no row to another outpoint. */
  lemma {:induction false} SameBaseCounts(rows: seq<Row>, rows': seq<Row>, op: Outpoint)
    requires SameBase(rows, rows')
    ensures CountOf(rows, op) == CountOf(rows', op)
  {
    if rows != [] {
      var n := |rows| - 1;
      assert Unspent(rows[n]) == Unspent(rows'[n]);
      SameBaseCounts(rows[..n], rows'[..n], op);
    }
  }

  lemma {:induction false} AffectedJoined(rows: seq<Row>, rows': seq<Row>, a: seq<Op>, b: seq<Op>)
    requires SameBase(rows, rows') && AllMarks(a) && AllMarks(b)
    ensures AllMarks(a + b)
    ensures Affected(rows, a + b) == Affected(rows, a) + Affected(rows', b)
    decreases |b|
  {
    if b == [] {
      assert a + b == a;
    } else {
      var n := |b| - 1;
      assert (a + b)[..|a + b| - 1] == a + b[..n];
      AffectedJoined(rows, rows', a, b[..n]);
      SameBaseCounts(rows, rows', b[n].vin.prev);
    }
  }

  lemma AffectedNone(rows: seq<Row>)
    ensures AllMarks([]) && Affected(rows, []) == 0
  {
  }

  lemma AffectedByOne(rows: seq<Row>, mark: Op)
    requires mark.Mark?
    ensures Affected(rows, [mark]) == CountOf(rows, mark.vin.prev)
  {
    assert [mark][..0] == [];
    assert Affected(rows, [mark][..0]) == 0;
  }

  class ChainDB {
    var vins: seq<Vin>
    var addresses: seq<Row>
    var numVouts: nat
    var numTxns: nat

    ghost function State(): Tables
      reads this
    {
      Tables(vins, addresses)
    }

    constructor ()
      ensures State() == Tables([], []) && Marked(State())
    {
      vins, addresses := [], [];
      numVouts, numTxns := 0, 0;
    }

    /** SetSpendingForFundingOP, with the number of rows affected. */
    method SetSpendingForFundingOP(op: Outpoint, txDbId: nat, spendingTx: TxId, vinIndex: nat, vinDbId: nat)
      returns (n: nat)
      modifies this`addresses
      ensures addresses == SetSpending(old(addresses), op, Spending(txDbId, spendingTx, vinIndex, vinDbId))
      ensures n == CountOf(old(addresses), op) && SameBase(old(addresses), addresses)
      ensures n == |PlacesOf(old(addresses), op)|
    {
      CountOfIs(addresses, op);
      n := CountOf(addresses, op);
      addresses := SetSpending(addresses, op, Spending(txDbId, spendingTx, vinIndex, vinDbId));
    }

    /** InsertVouts: the ids given to the outputs, and an address row for each of their addresses, as yet
        without the id of its transaction. */
    method InsertVouts(tx: Tx) returns (ids: seq<nat>, rows: seq<Row>)
      modifies this`numVouts
      ensures |ids| == |tx.outs| && numVouts == old(numVouts) + |tx.outs|
      ensures forall j :: 0 <= j < |ids| ==> ids[j] == old(numVouts) + j + 1
      ensures rows == RowsOfTx(tx, 0, ids, |tx.outs|)
    {
      ids, rows := [], [];
      while |ids| < |tx.outs|
        invariant |ids| <= |tx.outs| && numVouts == old(numVouts) + |ids|
        invariant forall j :: 0 <= j < |ids| ==> ids[j] == old(numVouts) + j + 1
        decreases |tx.outs| - |ids|
      {
        numVouts := numVouts + 1;
        ids := ids + [numVouts];
      }
      for j := 0 to |tx.outs|
        invariant rows == RowsOfTx(tx, 0, ids, j)
      {
        var out := tx.outs[j];
        ghost var before, all := rows, RowsOfOut(tx, j, 0, ids[j]);
        for k := 0 to |out.addresses|
          invariant rows == before + all[..k]
        {
          rows := rows + [Row(out.addresses[k], 0, Outpoint(tx.hash, j), ids[j], out.value, None)];
          assert all[..k + 1] == all[..k] + [all[k]];
        }
        assert all[..|out.addresses|] == all;
      }
    }

    /** InsertVins: the inputs go to the end of the table, and their ids are returned. */
    method InsertVins(newVins: seq<Vin>) returns (ids: seq<nat>)
      modifies this`vins
      ensures vins == old(vins) + newVins
      ensures |ids| == |newVins| && IdsFound(ids, newVins, vins)
    {
      hide IdsFound;
      ids := [];
      assert IdsFound(ids, newVins[..0], vins) by { IdsFoundNone(vins); }
      for iv := 0 to |newVins|
        invariant vins == old(vins) + newVins[..iv] && |ids| == iv
        invariant IdsFound(ids, newVins[..iv], vins)
      {
        IdsFoundOne(ids, newVins[..iv], vins, newVins[iv]);
        assert newVins[..iv + 1] == newVins[..iv] + [newVins[iv]];
        vins := vins + [newVins[iv]];
        ids := ids + [|vins|];
      }
      assert newVins[..|newVins|] == newVins;
    }

    /** The first loop of storeTxns. */
    method InsertTrees(txs: seq<Tx>)
      returns (rows: seq<seq<Row>>, voutIds: seq<seq<nat>>, vinIds: seq<seq<nat>>, numVins: nat, numNewVouts: nat)
      modifies this`vins, this`numVouts
      ensures vins == old(vins) + AllVinsOf(txs) && numVins == |AllVinsOf(txs)|
      ensures numVouts == old(numVouts) + numNewVouts && numNewVouts == Total(voutIds) && CountOn(voutIds, old(numVouts))
      ensures |rows| == |voutIds| == |vinIds| == |txs|
      ensures forall it :: 0 <= it < |txs| ==> TxInserted(txs[it], rows[it], voutIds[it], vinIds[it], vins)
    {
      hide RowsOfTx, VinsOf, IdsFound;
      rows, voutIds, vinIds, numVins, numNewVouts := [], [], [], 0, 0;
      for it := 0 to |txs|
        invariant vins == old(vins) + AllVinsOf(txs[..it]) && numVins == |AllVinsOf(txs[..it])|
        invariant numVouts == old(numVouts) + numNewVouts && numNewVouts == Total(voutIds) && CountOn(voutIds, old(numVouts))
        invariant |rows| == |voutIds| == |vinIds| == it
        invariant forall k :: 0 <= k < it ==> TxInserted(txs[k], rows[k], voutIds[k], vinIds[k], vins)
      {
        assert txs[..it + 1][..it] == txs[..it];
        ghost var before := vins;
        var newVoutIds, txRows := InsertVouts(txs[it]);
        var newVinIds := InsertVins(VinsOf(txs[it]));
        forall k | 0 <= k < it ensures TxInserted(txs[k], rows[k], voutIds[k], vinIds[k], vins) {
          IdsStayFound(vinIds[k], VinsOf(txs[k]), before, VinsOf(txs[it]));
        }
        assert (voutIds + [newVoutIds])[..it] == voutIds;
        rows, voutIds, vinIds := rows + [txRows], voutIds + [newVoutIds], vinIds + [newVinIds];
        numVins, numNewVouts := numVins + |newVinIds|, numNewVouts + |newVoutIds|;
      }
      assert txs[..|txs|] == txs;
    }

    /** InsertTxns, as far as its ids go. */
    method InsertTxns(n: nat) returns (ids: seq<nat>)
      modifies this`numTxns
      ensures |ids| == n && numTxns == old(numTxns) + n
      ensures forall i :: 0 <= i < n ==> ids[i] == old(numTxns) + i + 1
    {
      var before := numTxns;
      ids := seq(n, i requires 0 <= i < n => before + i + 1);
      numTxns := numTxns + n;
    }

    /** The inner of the loops that mark what the new inputs spend. */
    method MarkInputs(dbTxVins: seq<Vin>, txDbId: nat, vinIds: seq<nat>) returns (numAddresses: nat)
      requires IdsFound(vinIds, dbTxVins, vins)
      modifies this`addresses
      ensures State() == ExecAll(old(State()), MarksOf(dbTxVins, txDbId, vinIds))
      ensures IdsRight(vins, MarksOf(dbTxVins, txDbId, vinIds))
      ensures SameBase(old(addresses), addresses) && AllMarks(MarksOf(dbTxVins, txDbId, vinIds))
      ensures numAddresses == Affected(old(addresses), MarksOf(dbTxVins, txDbId, vinIds))
    {
      hide SetSpending, CountOf, Affected;
      numAddresses := 0;
      AffectedNone(addresses);
      for iv := 0 to |dbTxVins|
        invariant State() == ExecAll(old(State()), MarksOf(dbTxVins[..iv], txDbId, vinIds[..iv]))
        invariant IdsRight(vins, MarksOf(dbTxVins[..iv], txDbId, vinIds[..iv]))
        invariant SameBase(old(addresses), addresses) && AllMarks(MarksOf(dbTxVins[..iv], txDbId, vinIds[..iv]))
        invariant numAddresses == Affected(old(addresses), MarksOf(dbTxVins[..iv], txDbId, vinIds[..iv]))
      {
        assert dbTxVins[..iv + 1][..iv] == dbTxVins[..iv] && vinIds[..iv + 1][..iv] == vinIds[..iv];
        var vin := dbTxVins[iv];
        ghost var marks := MarksOf(dbTxVins[..iv], txDbId, vinIds[..iv]);
        if vin.prev.hash == ZERO_HASH {
          assert marks + [] == marks;
          continue;
        }
        var vinDbId := vinIds[iv];
        MarksStayRight(old(State()), marks, Mark(vin, txDbId, vinDbId));
        AffectedByOne(addresses, Mark(vin, txDbId, vinDbId));
        AffectedJoined(old(addresses), addresses, marks, [Mark(vin, txDbId, vinDbId)]);
        var n := SetSpendingForFundingOP(vin.prev, txDbId, vin.txHash, vin.txIndex, vinDbId);
        numAddresses := numAddresses + n;
      }
      assert dbTxVins[..|dbTxVins|] == dbTxVins && vinIds[..|dbTxVins|] == vinIds;
    }

    /** The outer loop. */
    method MarkSpenders(txs: seq<Tx>, txDbIds: seq<nat>, vinIds: seq<seq<nat>>, ghost tree: Tree)
      returns (numAddresses: nat)
      requires tree.Valid() && tree.txs == txs && tree.txIds == txDbIds && tree.vinIds == vinIds
      requires forall it :: 0 <= it < |txs| ==> IdsFound(vinIds[it], VinsOf(txs[it]), vins)
      modifies this`addresses
      ensures State() == ExecAll(old(State()), tree.Marks(|txs|)) && IdsRight(vins, tree.Marks(|txs|))
      ensures AllMarks(tree.Marks(|txs|)) && numAddresses == Affected(old(addresses), tree.Marks(|txs|))
    {
      hide VinsOf, IdsFound, IdsRight, ExecAll, MarksOf, Affected;
      NoMarksYet(State(), tree);
      AffectedNone(addresses);
      numAddresses := 0;
      for it := 0 to |txs|
        invariant State() == ExecAll(old(State()), tree.Marks(it)) && IdsRight(vins, tree.Marks(it))
        invariant SameBase(old(addresses), addresses) && AllMarks(tree.Marks(it))
        invariant numAddresses == Affected(old(addresses), tree.Marks(it))
      {
        ghost var more := MarksOf(VinsOf(txs[it]), txDbIds[it], vinIds[it]);
        ghost var before := addresses;
        var n := MarkInputs(VinsOf(txs[it]), txDbIds[it], vinIds[it]);
        ExecTwice(old(State()), tree.Marks(it), more);
        AffectedJoined(old(addresses), before, tree.Marks(it), more);
        numAddresses := numAddresses + n;
      }
    }

    /** storeTxns for one transaction tree. */
    method StoreTxns(txs: seq<Tx>, updateAddressesSpendingInfo: bool)
      returns (numVins: nat, numNewVouts: nat, numAddresses: nat, ghost tree: Tree)
      modifies this
      ensures tree.Valid() && tree.txs == txs && IdsRight(old(vins), tree.Ops())
      ensures State() ==
        ExecAll(old(State()), if updateAddressesSpendingInfo then tree.Ops() else tree.StoreOps())
      ensures numTxns == old(numTxns) + |txs| && numVouts == old(numVouts) + numNewVouts
      ensures forall i :: 0 <= i < |txs| ==> tree.txIds[i] == old(numTxns) + i + 1
      ensures numNewVouts == Total(tree.voutIds) && CountOn(tree.voutIds, old(numVouts))
      ensures numVins == |AllVinsOf(txs)| && AllMarks(tree.Marks(|txs|))
      ensures numAddresses == if updateAddressesSpendingInfo
        then Affected(old(addresses) + tree.Rows(|txs|), tree.Marks(|txs|)) else 0
    {
      hide Affected, RowsOfTx, MarksOf, VinsOf, SetSpending, IdsFound;
      var dbAddressRows, voutIds, vinIds;
      dbAddressRows, voutIds, vinIds, numVins, numNewVouts := InsertTrees(txs);
      var txDbIds := InsertTxns(|txs|);
      tree := Tree(txs, txDbIds, voutIds, vinIds);
      assert tree.Valid();
      var flat := Flatten(txs, dbAddressRows, txDbIds, tree);
      addresses := addresses + flat;
      StoreExec(old(State()), tree);
      TreeMarksRight(vins, tree, |txs|);
      TreeExec(old(State()), tree);
      numAddresses := 0;
      if updateAddressesSpendingInfo {
        numAddresses := MarkSpenders(txs, txDbIds, vinIds, tree);
      }
    }

    /** SetSpendingForVinDbIDs: one database transaction, rolled back if an id is not in the table. */
    method SetSpendingForVinDbIDs(vinDbIds: seq<nat>) returns (ok: bool, totalUpdated: nat)
      modifies this`addresses
      ensures ok <==> IdsWithin(vinDbIds, |vins|)
      ensures ok ==> State() == ExecAll(old(State()), BulkMarks(vins, vinDbIds)) && SameBase(old(addresses), addresses)
      ensures ok ==> AllMarks(BulkMarks(vins, vinDbIds))
      ensures ok ==> totalUpdated == Affected(old(addresses), BulkMarks(vins, vinDbIds))
      ensures !ok ==> State() == old(State())
    {
      hide SetSpending, CountOf, Affected;
      var before := addresses;
      totalUpdated := 0;
      AffectedNone(addresses);
      for iv := 0 to |vinDbIds|
        invariant IdsWithin(vinDbIds[..iv], |vins|)
        invariant State() == ExecAll(old(State()), BulkMarks(vins, vinDbIds[..iv]))
        invariant SameBase(before, addresses) && AllMarks(BulkMarks(vins, vinDbIds[..iv]))
        invariant totalUpdated == Affected(before, BulkMarks(vins, vinDbIds[..iv]))
      {
        assert vinDbIds[..iv + 1][..iv] == vinDbIds[..iv];
        var id := vinDbIds[iv];
        if id == 0 || id > |vins| {
          addresses := before;
          return false, 0;
        }
        var vin := vins[id - 1];
        ghost var marks := BulkMarks(vins, vinDbIds[..iv]);
        if vin.prev.hash == ZERO_HASH {
          assert marks + [] == marks;
          continue;
        }
        ExecTwice(old(State()), marks, [Mark(vin, 0, id)]);
        AffectedByOne(addresses, Mark(vin, 0, id));
        AffectedJoined(before, addresses, marks, [Mark(vin, 0, id)]);
        var n := SetSpendingForFundingOP(vin.prev, 0, vin.txHash, vin.txIndex, id);
        totalUpdated := totalUpdated + n;
      }
      assert vinDbIds[..|vinDbIds|] == vinDbIds;
      ok := true;
    }

    /** UpdateSpendingInfoInAllAddresses, in chunks of 1000. The ids come in the order in which the database
        happens to return them. */
    method UpdateSpendingInfoInAllAddresses(allVinDbIds: seq<nat>) returns (numAddresses: nat)
      requires IdsWithin(allVinDbIds, |vins|) && forall id: nat :: 1 <= id <= |vins| ==> id in allVinDbIds
      modifies this`addresses
      ensures State() == ExecAll(old(State()), BulkMarks(vins, allVinDbIds))
      ensures old(NoneWrong(State())) ==> Marked(State())
      ensures AllMarks(BulkMarks(vins, allVinDbIds))
      ensures numAddresses == Affected(old(addresses), BulkMarks(vins, allVinDbIds))
    {
      hide Affected, IdsWithin, SetSpending, ExecAll, BulkMarks, NoneWrong, Marked;
      numAddresses := 0;
      var i := 0;
      NothingDone(State(), allVinDbIds);
      AffectedNone(addresses);
      while i < |allVinDbIds|
        invariant 0 <= i <= |allVinDbIds| && IdsWithin(allVinDbIds, |vins|) && IdsWithin(allVinDbIds[..i], |vins|)
        invariant State() == ExecAll(old(State()), BulkMarks(vins, allVinDbIds[..i]))
        invariant SameBase(old(addresses), addresses) && AllMarks(BulkMarks(vins, allVinDbIds[..i]))
        invariant numAddresses == Affected(old(addresses), BulkMarks(vins, allVinDbIds[..i]))
      {
        var endChunk := i + 1000;
        if endChunk > |allVinDbIds| {
          endChunk := |allVinDbIds|;
        }
        var chunk := allVinDbIds[i..endChunk];
        assert allVinDbIds[..endChunk] == allVinDbIds[..i] + chunk;
        ChunkWithin(allVinDbIds, |vins|, i, endChunk);
        BulkMarksJoin(vins, allVinDbIds[..i], chunk);
        ExecTwice(old(State()), BulkMarks(vins, allVinDbIds[..i]), BulkMarks(vins, chunk));
        ghost var before := addresses;
        var ok, n := SetSpendingForVinDbIDs(chunk);
        AffectedJoined(old(addresses), before, BulkMarks(vins, allVinDbIds[..i]), BulkMarks(vins, chunk));
        if ok {
          numAddresses := numAddresses + n;
        }
        i := endChunk;
      }
      assert allVinDbIds[..|allVinDbIds|] == allVinDbIds;
      if old(NoneWrong(State())) {
        BulkMarksAll(old(State()), allVinDbIds);
      }
    }
  }

  lemma ChunkWithin(ids: seq<nat>, n: nat, i: nat, j: nat)
    requires IdsWithin(ids, n) && i <= j <= |ids|
    ensures IdsWithin(ids[..i], n) && IdsWithin(ids[..j], n) && IdsWithin(ids[i..j], n)
  {
    forall k | 0 <= k < j - i ensures 1 <= ids[i..j][k] <= n {
      assert ids[i..j][k] == ids[i + k];
    }
  }

  lemma NothingDone(t: Tables, ids: seq<nat>)
    ensures IdsWithin(ids[..0], |t.vins|) && BulkMarks(t.vins, ids[..0]) == []
    ensures t == ExecAll(t, BulkMarks(t.vins, ids[..0]))
  {
  }

  lemma {:induction false} BulkMarksJoin(vins: seq<Vin>, a: seq<nat>, b: seq<nat>)
    requires IdsWithin(a, |vins|) && IdsWithin(b, |vins|)
    ensures IdsWithin(a + b, |vins|) && BulkMarks(vins, a + b) == BulkMarks(vins, a) + BulkMarks(vins, b)
    decreases |b|
  {
    if b == [] {
      assert a + b == a;
    } else {
      assert (a + b)[..|a + b| - 1] == a + b[..|b| - 1];
      assert IdsWithin(b[..|b| - 1], |vins|);
      BulkMarksJoin(vins, a, b[..|b| - 1]);
    }
  }

  /** Storing the transaction ids in the rows and laying the rows out in one list. */
  method Flatten(txs: seq<Tx>, rows: seq<seq<Row>>, txDbIds: seq<nat>, ghost tree: Tree) returns (flat: seq<Row>)
    requires tree.Valid() && tree.txs == txs && tree.txIds == txDbIds && |rows| == |txs|
    requires forall it :: 0 <= it < |txs| ==> rows[it] == RowsOfTx(txs[it], 0, tree.voutIds[it], |txs[it].outs|)
    ensures flat == tree.Rows(|txs|)
  {
    hide RowsOfTx;
    flat := [];
    for it := 0 to |txs|
      invariant flat == tree.Rows(it)
    {
      ghost var before, all := flat, RowsOfTx(txs[it], txDbIds[it], tree.voutIds[it], |txs[it].outs|);
      RowsWithId(txs[it], txDbIds[it], tree.voutIds[it], |txs[it].outs|);
      for iv := 0 to |rows[it]|
        invariant flat == before + all[..iv]
      {
        flat := flat + [rows[it][iv].(fundingTxDbId := txDbIds[it])];
        assert all[..iv + 1] == all[..iv] + [all[iv]];
      }
      assert all[..|rows[it]|] == all;
    }
  }

  lemma {:induction false} RowsWithId(tx: Tx, txId: nat, voutIds: seq<nat>, n: nat)
    requires n <= |tx.outs| == |voutIds|
    ensures var r, r0 := RowsOfTx(tx, txId, voutIds, n), RowsOfTx(tx, 0, voutIds, n);
      |r| == |r0| && forall i :: 0 <= i < |r| ==> r[i] == r0[i].(fundingTxDbId := txId)
  {
    if n > 0 {
      RowsWithId(tx, txId, voutIds, n - 1);
    }
  }

  /** The ids are those of the inputs in the table. */
  ghost predicate IdsFound(ids: seq<nat>, newVins: seq<Vin>, vins: seq<Vin>) {
    |ids| == |newVins| && forall iv :: 0 <= iv < |ids| ==> 1 <= ids[iv] <= |vins| && vins[ids[iv] - 1] == newVins[iv]
  }

  ghost predicate TxInserted(tx: Tx, rows: seq<Row>, voutIds: seq<nat>, vinIds: seq<nat>, vins: seq<Vin>) {
    && |voutIds| == |tx.outs| && |vinIds| == |tx.ins|
    && rows == RowsOfTx(tx, 0, voutIds, |tx.outs|) && IdsFound(vinIds, VinsOf(tx), vins)
  }

  lemma IdsFoundNone(vins: seq<Vin>)
    ensures IdsFound([], [], vins)
  {
  }

  lemma IdsFoundOne(ids: seq<nat>, newVins: seq<Vin>, vins: seq<Vin>, vin: Vin)
    requires IdsFound(ids, newVins, vins)
    ensures IdsFound(ids + [|vins| + 1], newVins + [vin], vins + [vin])
  {
  }

  lemma IdsStayFound(ids: seq<nat>, newVins: seq<Vin>, vins: seq<Vin>, more: seq<Vin>)
    requires IdsFound(ids, newVins, vins)
    ensures IdsFound(ids, newVins, vins + more)
  {
  }

  lemma {:induction false} InsertsAdd(t: Tables, txs: seq<Tx>)
    ensures ExecAll(t, Inserts(txs)) == t.(vins := t.vins + AllVinsOf(txs)) && IdsRight(t.vins, Inserts(txs))
  {
    hide VinsOf, SetSpending;
    if txs == [] {
      assert t.vins + [] == t.vins;
    } else {
      var rest, last := txs[..|txs| - 1], AddVins(VinsOf(txs[|txs| - 1]));
      InsertsAdd(t, rest);
      ExecTwice(t, Inserts(rest), [last]);
      assert (t.vins + AllVinsOf(rest)) + last.vins == t.vins + AllVinsOf(txs);
    }
  }

  lemma StoreExec(t: Tables, tree: Tree)
    requires tree.Valid()
    ensures var stored := Tables(t.vins + AllVinsOf(tree.txs), t.rows + tree.Rows(|tree.txs|));
      ExecAll(t, tree.StoreOps()) == stored && IdsRight(t.vins, tree.StoreOps())
  {
    hide VinsOf, SetSpending, AllVinsOf;
    InsertsAdd(t, tree.txs);
    ExecTwice(t, Inserts(tree.txs), [AddRows(tree.Rows(|tree.txs|))]);
  }

  lemma TreeExec(t: Tables, tree: Tree)
    requires tree.Valid() && IdsRight(t.vins + AllVinsOf(tree.txs), tree.Marks(|tree.txs|))
    ensures ExecAll(t, tree.Ops()) == ExecAll(ExecAll(t, tree.StoreOps()), tree.Marks(|tree.txs|))
    ensures IdsRight(t.vins, tree.Ops())
  {
    hide VinsOf, SetSpending, AllVinsOf;
    StoreExec(t, tree);
    ExecTwice(t, tree.StoreOps(), tree.Marks(|tree.txs|));
  }

  lemma {:induction false} MarksOfRight(vins: seq<Vin>, newVins: seq<Vin>, txId: nat, ids: seq<nat>)
    requires IdsFound(ids, newVins, vins)
    ensures forall a <- MarksOf(newVins, txId, ids) ::
      a.Mark? && 1 <= a.vinDbId <= |vins| && vins[a.vinDbId - 1] == a.vin
    decreases |newVins|
  {
    if newVins != [] {
      MarksOfRight(vins, newVins[..|newVins| - 1], txId, ids[..|newVins| - 1]);
    }
  }

  lemma TreeMarksRight(vins: seq<Vin>, tree: Tree, n: nat)
    requires tree.Valid() && n <= |tree.txs|
    requires forall it :: 0 <= it < |tree.txs| ==> IdsFound(tree.vinIds[it], VinsOf(tree.txs[it]), vins)
    ensures forall a <- tree.Marks(n) :: a.Mark? && 1 <= a.vinDbId <= |vins| && vins[a.vinDbId - 1] == a.vin
    ensures IdsRight(vins, tree.Marks(n))
    decreases n
  {
    hide VinsOf, IdsFound, MarksOf;
    if n > 0 {
      TreeMarksRight(vins, tree, n - 1);
      MarksOfRight(vins, VinsOf(tree.txs[n - 1]), tree.txIds[n - 1], tree.vinIds[n - 1]);
    }
    MarkIdsRight(vins, tree.Marks(n));
  }

  lemma NoMarksYet(t: Tables, tree: Tree)
    requires tree.Valid()
    ensures ExecAll(t, tree.Marks(0)) == t && IdsRight(t.vins, tree.Marks(0))
  {
  }

  lemma MarksStayRight(t: Tables, marks: seq<Op>, mark: Op)
    requires mark.Mark? && IdsRight(t.vins, marks)
    requires 1 <= mark.vinDbId <= |t.vins| && t.vins[mark.vinDbId - 1] == mark.vin
    ensures ExecAll(t, marks + [mark]) == Exec(ExecAll(t, marks), mark) && IdsRight(t.vins, marks + [mark])
  {
    hide SetSpending;
    ExecTwice(t, marks, [mark]);
    VinsGrow(t, marks);
  }
}
