/** What the rows stand for: address rows are the outputs of stored transactions, address by address, vins their
    inputs, and an output is spent exactly when a stored input names it. */
module AddressOutputs {
  import opened Options
  import opened AddressTable
  import opened AddressRuns
  import opened AddressHistory

  // ---------------------------------------------------------------------------------------------
  // One transaction

  /** Address k of output j. */
  ghost predicate AddressAt(tx: Tx, n: nat, j: int, k: int) {
    0 <= j < n <= |tx.outs| && 0 <= k < |tx.outs[j].addresses|
  }

  ghost predicate IsRowAt(tx: Tx, txId: nat, voutIds: seq<nat>, n: nat, j: int, k: int, row: Row) {
    && |voutIds| == |tx.outs| && AddressAt(tx, n, j, k)
    && row == Row(tx.outs[j].addresses[k], txId, Outpoint(tx.hash, j), voutIds[j], tx.outs[j].value, None)
  }

  /** The rows of a transaction are those of its outputs, with their own places, ids and values. */
  lemma {:induction false} RowsOfTxAre(tx: Tx, txId: nat, voutIds: seq<nat>, n: nat, row: Row)
    requires n <= |tx.outs| == |voutIds|
    ensures row in RowsOfTx(tx, txId, voutIds, n) <==> exists j, k :: IsRowAt(tx, txId, voutIds, n, j, k, row)
    decreases n
  {
    if n > 0 {
      RowsOfTxAre(tx, txId, voutIds, n - 1, row);
      var last := RowsOfOut(tx, n - 1, txId, voutIds[n - 1]);
      if row in last {
        var k :| 0 <= k < |last| && last[k] == row;
        assert IsRowAt(tx, txId, voutIds, n, n - 1, k, row);
      } else if row in RowsOfTx(tx, txId, voutIds, n - 1) {
        var j, k :| IsRowAt(tx, txId, voutIds, n - 1, j, k, row);
        assert IsRowAt(tx, txId, voutIds, n, j, k, row);
      }
      forall j, k | IsRowAt(tx, txId, voutIds, n, j, k, row) ensures row in RowsOfTx(tx, txId, voutIds, n) {
        if j == n - 1 {
          assert last[k] == row;
        } else {
          assert IsRowAt(tx, txId, voutIds, n - 1, j, k, row);
        }
      }
    }
  }

  lemma RowsOfTxGrow(tx: Tx, txId: nat, voutIds: seq<nat>, j: nat)
    requires j < |tx.outs| == |voutIds|
    ensures RowsOfTx(tx, txId, voutIds, j + 1) == RowsOfTx(tx, txId, voutIds, j) + RowsOfOut(tx, j, txId, voutIds[j])
  {
  }

  /** They come output by output and address by address, each of them once. */
  lemma {:induction false} RowsOfTxInOrder(tx: Tx, txId: nat, voutIds: seq<nat>, n: nat, j: nat)
    requires j < n <= |tx.outs| == |voutIds|
    ensures var before, rows := RowsOfTx(tx, txId, voutIds, j), RowsOfTx(tx, txId, voutIds, n);
      var addresses := tx.outs[j].addresses;
      && |RowsOfTx(tx, txId, voutIds, 0)| == 0
      && |RowsOfTx(tx, txId, voutIds, j + 1)| == |before| + |addresses| <= |rows|
      && forall k :: 0 <= k < |addresses| ==>
        rows[|before| + k] == Row(addresses[k], txId, Outpoint(tx.hash, j), voutIds[j], tx.outs[j].value, None)
    decreases n
  {
    RowsOfTxGrow(tx, txId, voutIds, n - 1);
    if j < n - 1 {
      RowsOfTxInOrder(tx, txId, voutIds, n - 1, j);
    }
  }

  // ---------------------------------------------------------------------------------------------
  // One tree

  /** Row r stands for address k of output j of transaction t. */
  ghost predicate IsOutput(txs: seq<Tx>, t: int, j: int, k: int, r: Row) {
    && 0 <= t < |txs| && 0 <= j < |txs[t].outs| && 0 <= k < |txs[t].outs[j].addresses|
    && r.address == txs[t].outs[j].addresses[k] && r.op == Outpoint(txs[t].hash, j) && r.value == txs[t].outs[j].value
  }

  ghost predicate IsTreeRow(tree: Tree, n: nat, t: int, j: int, k: int, r: Row)
    requires tree.Valid()
  {
    && 0 <= t < n <= |tree.txs| && IsOutput(tree.txs, t, j, k, r)
    && r.fundingTxDbId == tree.txIds[t] && r.voutDbId == tree.voutIds[t][j] && r.spending.None?
  }

  /** The rows of a tree are the outputs of its transactions, each with the ids the database gave. */
  lemma {:induction false} TreeRowsAre(tree: Tree, n: nat, r: Row)
    requires tree.Valid() && n <= |tree.txs|
    ensures r in tree.Rows(n) <==> exists t, j, k :: IsTreeRow(tree, n, t, j, k, r)
    decreases n
  {
    hide RowsOfTx;
    if n > 0 {
      TreeRowsAre(tree, n - 1, r);
      var tx, txId, ids := tree.txs[n - 1], tree.txIds[n - 1], tree.voutIds[n - 1];
      RowsOfTxAre(tx, txId, ids, |tx.outs|, r);
      if r in RowsOfTx(tx, txId, ids, |tx.outs|) {
        var j, k :| IsRowAt(tx, txId, ids, |tx.outs|, j, k, r);
        assert IsTreeRow(tree, n, n - 1, j, k, r);
      } else if r in tree.Rows(n - 1) {
        var t, j, k :| IsTreeRow(tree, n - 1, t, j, k, r);
        assert IsTreeRow(tree, n, t, j, k, r);
      }
      forall t, j, k | IsTreeRow(tree, n, t, j, k, r) ensures r in tree.Rows(n) {
        if t == n - 1 {
          assert IsRowAt(tx, txId, ids, |tx.outs|, j, k, r);
        } else {
          assert IsTreeRow(tree, n - 1, t, j, k, r);
        }
      }
    }
  }

  /** v is input i of transaction t. */
  ghost predicate IsInput(txs: seq<Tx>, t: int, i: int, v: Vin) {
    0 <= t < |txs| && 0 <= i < |txs[t].ins| && v == Vin(txs[t].hash, i, txs[t].ins[i])
  }

  /** The vins of a tree are the inputs of its transactions ... */
  lemma {:induction false} VinsAre(txs: seq<Tx>, v: Vin)
    ensures v in AllVinsOf(txs) <==> exists t, i :: IsInput(txs, t, i, v)
    decreases |txs|
  {
    if txs != [] {
      var n := |txs| - 1;
      VinsAre(txs[..n], v);
      var last := VinsOf(txs[n]);
      assert forall i :: IsInput(txs, n, i, v) <==> 0 <= i < |last| && last[i] == v;
      assert forall t, i :: t != n ==> (IsInput(txs, t, i, v) <==> IsInput(txs[..n], t, i, v));
    }
  }

  /** ... transaction by transaction and input by input, each of them once. */
  lemma {:induction false} VinsInOrder(txs: seq<Tx>, t: nat)
    requires t < |txs|
    ensures var before, vins := AllVinsOf(txs[..t]), AllVinsOf(txs);
      && |AllVinsOf(txs[..0])| == 0
      && |AllVinsOf(txs[..t + 1])| == |before| + |txs[t].ins| <= |vins|
      && forall i :: 0 <= i < |txs[t].ins| ==> vins[|before| + i] == Vin(txs[t].hash, i, txs[t].ins[i])
    decreases |txs|
  {
    hide VinsOf;
    var n := |txs| - 1;
    if t < n {
      assert txs[..n][..t] == txs[..t] && txs[..n][..t + 1] == txs[..t + 1];
      VinsInOrder(txs[..n], t);
    } else {
      assert txs[..t + 1] == txs;
    }
  }

  ghost predicate IsMark(vins: seq<Vin>, txId: nat, ids: seq<nat>, i: int, a: Op) {
    0 <= i < |vins| == |ids| && vins[i].prev.hash != ZERO_HASH && a == Mark(vins[i], txId, ids[i])
  }

  lemma {:induction false} MarksOfAre(vins: seq<Vin>, txId: nat, ids: seq<nat>, a: Op)
    requires |ids| == |vins|
    ensures a in MarksOf(vins, txId, ids) <==> exists i :: IsMark(vins, txId, ids, i, a)
    decreases |vins|
  {
    if vins != [] {
      var n := |vins| - 1;
      var rest := MarksOf(vins[..n], txId, ids[..n]);
      MarksOfAre(vins[..n], txId, ids[..n], a);
      if a in rest {
        var i :| IsMark(vins[..n], txId, ids[..n], i, a);
        assert IsMark(vins, txId, ids, i, a);
      } else if a in MarksOf(vins, txId, ids) {
        assert IsMark(vins, txId, ids, n, a);
      }
      forall i | IsMark(vins, txId, ids, i, a) ensures a in MarksOf(vins, txId, ids) {
        if i < n {
          assert IsMark(vins[..n], txId, ids[..n], i, a);
        }
      }
    }
  }

  ghost predicate IsTreeMark(tree: Tree, n: nat, t: int, i: int, a: Op)
    requires tree.Valid()
  {
    && 0 <= t < n <= |tree.txs| && 0 <= i < |tree.txs[t].ins| && tree.txs[t].ins[i].hash != ZERO_HASH
    && a == Mark(Vin(tree.txs[t].hash, i, tree.txs[t].ins[i]), tree.txIds[t], tree.vinIds[t][i])
  }

  /** The marks of a tree are for its inputs that spend something, each with the row ids of its own transaction
      and input. */
  lemma {:induction false} TreeMarksAre(tree: Tree, n: nat, a: Op)
    requires tree.Valid() && n <= |tree.txs|
    ensures a in tree.Marks(n) <==> exists t, i :: IsTreeMark(tree, n, t, i, a)
    decreases n
  {
    hide MarksOf;
    if n > 0 {
      TreeMarksAre(tree, n - 1, a);
      var vins, txId, ids := VinsOf(tree.txs[n - 1]), tree.txIds[n - 1], tree.vinIds[n - 1];
      MarksOfAre(vins, txId, ids, a);
      if a in MarksOf(vins, txId, ids) {
        var i :| IsMark(vins, txId, ids, i, a);
        assert IsTreeMark(tree, n, n - 1, i, a);
      } else if a in tree.Marks(n - 1) {
        var t, i :| IsTreeMark(tree, n - 1, t, i, a);
        assert IsTreeMark(tree, n, t, i, a);
      }
      forall t, i | IsTreeMark(tree, n, t, i, a) ensures a in tree.Marks(n) {
        if t == n - 1 {
          assert IsMark(vins, txId, ids, i, a);
        } else {
          assert IsTreeMark(tree, n - 1, t, i, a);
        }
      }
    }
  }

  // ---------------------------------------------------------------------------------------------
  // What statements insert

  ghost predicate InsertsVin(ops: seq<Op>, v: Vin) {
    exists a <- ops :: a.AddVins? && v in a.vins
  }

  /** Some row is this one, but for its spending. */
  ghost predicate HasRow(rows: seq<Row>, u: Row) {
    exists r <- rows :: Unspent(r) == u
  }

  ghost predicate InsertsRow(ops: seq<Op>, u: Row) {
    exists a <- ops :: a.AddRows? && HasRow(a.rows, u)
  }

  lemma {:induction false} VinsInserted(t: Tables, ops: seq<Op>, v: Vin)
    ensures v in ExecAll(t, ops).vins <==> v in t.vins || InsertsVin(ops, v)
    decreases |ops|
  {
    hide SetSpending;
    if ops != [] {
      VinsInserted(Exec(t, ops[0]), ops[1..], v);
      assert forall a :: a in ops <==> a == ops[0] || a in ops[1..];
    }
  }

  lemma RowsAfterOp(t: Tables, a: Op, u: Row)
    ensures HasRow(Exec(t, a).rows, u) <==> HasRow(t.rows, u) || (a.AddRows? && HasRow(a.rows, u))
  {
    var rows := Exec(t, a).rows;
    if a.Mark? {
      assert SameBase(t.rows, rows);
      if HasRow(t.rows, u) {
        var i :| 0 <= i < |t.rows| && Unspent(t.rows[i]) == u;
        assert rows[i] in rows;
      }
      if HasRow(rows, u) {
        var i :| 0 <= i < |rows| && Unspent(rows[i]) == u;
        assert t.rows[i] in t.rows;
      }
    }
  }

  lemma {:induction false} RowsInserted(t: Tables, ops: seq<Op>, u: Row)
    ensures HasRow(ExecAll(t, ops).rows, u) <==> HasRow(t.rows, u) || InsertsRow(ops, u)
    decreases |ops|
  {
    hide SetSpending, HasRow;
    if ops != [] {
      RowsAfterOp(t, ops[0], u);
      RowsInserted(Exec(t, ops[0]), ops[1..], u);
      assert forall a :: a in ops <==> a == ops[0] || a in ops[1..];
    }
  }

  lemma InsertedByEither(c: seq<Op>, a: seq<Op>, b: seq<Op>, v: Vin, u: Row)
    requires forall x :: x in c <==> x in a || x in b
    ensures InsertsVin(c, v) <==> InsertsVin(a, v) || InsertsVin(b, v)
    ensures InsertsRow(c, u) <==> InsertsRow(a, u) || InsertsRow(b, u)
  {
    hide HasRow;
  }

  lemma {:induction false} InsertsAre(txs: seq<Tx>, v: Vin)
    ensures InsertsVin(Inserts(txs), v) <==> v in AllVinsOf(txs)
    decreases |txs|
  {
    hide VinsOf;
    if txs != [] {
      var n := |txs| - 1;
      InsertsAre(txs[..n], v);
      var last := [AddVins(VinsOf(txs[n]))];
      assert forall a :: a in Inserts(txs) <==> a in Inserts(txs[..n]) || a == last[0];
    }
  }

  /** A tree inserts the inputs and outputs of its transactions. */
  lemma TreeInserts(tree: Tree, v: Vin, u: Row)
    requires tree.Valid()
    ensures InsertsVin(tree.Ops(), v) <==> exists t, i :: IsInput(tree.txs, t, i, v)
    ensures InsertsRow(tree.Ops(), u) <==> HasRow(tree.Rows(|tree.txs|), u)
  {
    hide HasRow;
    var n, ins, rows := |tree.txs|, Inserts(tree.txs), [AddRows(tree.Rows(|tree.txs|))];
    InsertsMarkNothing(tree.txs);
    TreeMarksExactly(tree, n);
    InsertsAre(tree.txs, v);
    VinsAre(tree.txs, v);
    hide IsInput, Inserts, AllVinsOf;
    assert forall a :: a in tree.Ops() <==> a in ins || a == rows[0] || a in tree.Marks(n);
    assert rows[0] in tree.Ops();
  }

  // ---------------------------------------------------------------------------------------------
  // Whole histories

  function StoredTxs(blocks: seq<StoredBlock>): seq<Tx>
    decreases |blocks|
  {
    if blocks == [] then [] else blocks[0].regular.txs + blocks[0].stake.txs + StoredTxs(blocks[1..])
  }

  ghost predicate HasInput(txs: seq<Tx>, v: Vin) {
    exists t, i :: IsInput(txs, t, i, v)
  }

  ghost predicate HasOutput(txs: seq<Tx>, u: Row) {
    exists t, j, k :: IsOutput(txs, t, j, k, u)
  }

  lemma HasInputJoined(a: seq<Tx>, b: seq<Tx>, v: Vin)
    ensures HasInput(a + b, v) <==> HasInput(a, v) || HasInput(b, v)
  {
    forall t, i | IsInput(a, t, i, v) ensures HasInput(a + b, v) {
      assert IsInput(a + b, t, i, v);
    }
    forall t, i | IsInput(b, t, i, v) ensures HasInput(a + b, v) {
      assert IsInput(a + b, |a| + t, i, v);
    }
    forall t, i | IsInput(a + b, t, i, v) ensures HasInput(a, v) || HasInput(b, v) {
      assert if t < |a| then IsInput(a, t, i, v) else IsInput(b, t - |a|, i, v);
    }
  }

  lemma HasOutputJoined(a: seq<Tx>, b: seq<Tx>, u: Row)
    ensures HasOutput(a + b, u) <==> HasOutput(a, u) || HasOutput(b, u)
  {
    forall t, j, k | IsOutput(a, t, j, k, u) ensures HasOutput(a + b, u) {
      assert IsOutput(a + b, t, j, k, u);
    }
    forall t, j, k | IsOutput(b, t, j, k, u) ensures HasOutput(a + b, u) {
      assert IsOutput(a + b, |a| + t, j, k, u);
    }
    forall t, j, k | IsOutput(a + b, t, j, k, u) ensures HasOutput(a, u) || HasOutput(b, u) {
      assert if t < |a| then IsOutput(a, t, j, k, u) else IsOutput(b, t - |a|, j, k, u);
    }
  }

  /** A row that is there but for its spending and its ids. */
  ghost predicate HasOutputRow(rows: seq<Row>, txs: seq<Tx>, t: int, j: int, k: int) {
    exists r <- rows :: IsOutput(txs, t, j, k, r)
  }

  lemma TreeOutputs(tree: Tree, u: Row)
    requires tree.Valid()
    ensures HasRow(tree.Rows(|tree.txs|), u) ==> HasOutput(tree.txs, u)
  {
    var rows := tree.Rows(|tree.txs|);
    if HasRow(rows, u) {
      var r :| r in rows && Unspent(r) == u;
      TreeRowsAre(tree, |tree.txs|, r);
      var t, j, k :| IsTreeRow(tree, |tree.txs|, t, j, k, r);
      assert IsOutput(tree.txs, t, j, k, u);
    }
  }

  /** After any history: the vins are the inputs of the stored transactions, and every row is an output. */
  lemma {:induction false} HistoryInserts(t: Tables, blocks: seq<StoredBlock>, v: Vin, u: Row)
    requires AllStored(t, blocks)
    ensures InsertsVin(HistoryOps(blocks), v) <==> HasInput(StoredTxs(blocks), v)
    ensures InsertsRow(HistoryOps(blocks), u) ==> HasOutput(StoredTxs(blocks), u)
    decreases |blocks|
  {
    hide HasRow, IsInput, IsOutput, InsertsVin, InsertsRow, HasInput, HasOutput;
    if blocks == [] {
      NothingInserted(v, u);
    } else {
      var b, rest := blocks[0], HistoryOps(blocks[1..]);
      HistoryInserts(ExecAll(t, b.ops), blocks[1..], v, u);
      BlockInserts(t, b, v, u);
      InsertedByEither(b.ops + rest, b.ops, rest, v, u);
      HasInputJoined(b.regular.txs + b.stake.txs, StoredTxs(blocks[1..]), v);
      HasOutputJoined(b.regular.txs + b.stake.txs, StoredTxs(blocks[1..]), u);
    }
  }

  lemma NothingInserted(v: Vin, u: Row)
    ensures !InsertsVin([], v) && !InsertsRow([], u) && !HasInput([], v)
  {
  }

  lemma BlockInserts(t: Tables, b: StoredBlock, v: Vin, u: Row)
    requires BlockStored(t, b)
    ensures InsertsVin(b.ops, v) <==> HasInput(b.regular.txs + b.stake.txs, v)
    ensures InsertsRow(b.ops, u) ==> HasOutput(b.regular.txs + b.stake.txs, u)
  {
    InterleavingHasAll(b.ops, b.regular.Ops(), b.stake.Ops());
    InsertedByEither(b.ops, b.regular.Ops(), b.stake.Ops(), v, u);
    TreeInserts(b.regular, v, u);
    TreeInserts(b.stake, v, u);
    TreeOutputs(b.regular, u);
    TreeOutputs(b.stake, u);
    HasInputJoined(b.regular.txs, b.stake.txs, v);
    hide HasRow, IsInput, IsOutput, InsertsVin, InsertsRow, HasOutput, Interleaving, IdsRight;
    HasOutputJoined(b.regular.txs, b.stake.txs, u);
  }

  /** Every output of a tree has its row. */
  lemma TreeHasOutputs(tree: Tree, t: int, j: int, k: int) returns (u: Row)
    requires tree.Valid() && 0 <= t < |tree.txs| && 0 <= j < |tree.txs[t].outs| && 0 <= k < |tree.txs[t].outs[j].addresses|
    ensures IsOutput(tree.txs, t, j, k, u) && InsertsRow(tree.Ops(), u)
  {
    var tx := tree.txs[t];
    u := Row(tx.outs[j].addresses[k], tree.txIds[t], Outpoint(tx.hash, j), tree.voutIds[t][j], tx.outs[j].value, None);
    assert IsTreeRow(tree, |tree.txs|, t, j, k, u);
    TreeRowsAre(tree, |tree.txs|, u);
    assert Unspent(u) == u && HasRow(tree.Rows(|tree.txs|), u);
    TreeInserts(tree, Vin(0, 0, Outpoint(0, 0)), u);
  }

  predicate AddressIn(txs: seq<Tx>, t: int, j: int, k: int) {
    0 <= t < |txs| && 0 <= j < |txs[t].outs| && 0 <= k < |txs[t].outs[j].addresses|
  }

  lemma {:induction false} HistoryHasOutputs(blocks: seq<StoredBlock>, t: int, j: int, k: int) returns (u: Row)
    requires forall b <- blocks :: b.regular.Valid() && b.stake.Valid()
    requires forall b <- blocks :: forall x :: x in b.ops <==> x in b.regular.Ops() || x in b.stake.Ops()
    requires AddressIn(StoredTxs(blocks), t, j, k)
    ensures IsOutput(StoredTxs(blocks), t, j, k, u) && InsertsRow(HistoryOps(blocks), u)
    decreases |blocks|
  {
    hide InsertsRow;
    var b := blocks[0];
    assert b in blocks && forall x <- blocks[1..] :: x in blocks;
    var n, m := |b.regular.txs|, |b.stake.txs|;
    var ops, rest := b.ops, HistoryOps(blocks[1..]);
    if t < n {
      u := TreeHasOutputs(b.regular, t, j, k);
    } else if t < n + m {
      u := TreeHasOutputs(b.stake, t - n, j, k);
    } else {
      u := HistoryHasOutputs(blocks[1..], t - n - m, j, k);
    }
    var v := Vin(0, 0, Outpoint(0, 0));
    InsertedByEither(ops, b.regular.Ops(), b.stake.Ops(), v, u);
    InsertedByEither(ops + rest, ops, rest, v, u);
  }

  lemma {:induction false} StoredBlocksAre(t: Tables, blocks: seq<StoredBlock>)
    requires AllStored(t, blocks)
    ensures forall b <- blocks :: b.regular.Valid() && b.stake.Valid()
    ensures forall b <- blocks :: forall x :: x in b.ops <==> x in b.regular.Ops() || x in b.stake.Ops()
    decreases |blocks|
  {
    if blocks != [] {
      var b := blocks[0];
      InterleavingHasAll(b.ops, b.regular.Ops(), b.stake.Ops());
      StoredBlocksAre(ExecAll(t, b.ops), blocks[1..]);
      assert forall x :: x in blocks <==> x == b || x in blocks[1..];
    }
  }

  /** The tables hold the inputs and the outputs of these transactions, and nothing else. */
  ghost predicate StandsFor(e: Tables, txs: seq<Tx>) {
    && (forall v :: v in e.vins <==> HasInput(txs, v))
    && (forall r <- e.rows :: HasOutput(txs, r))
    && (forall t, j, k :: AddressIn(txs, t, j, k) ==> HasOutputRow(e.rows, txs, t, j, k))
  }

  /** What stands for something depends on vins and rows without their spendings. */
  lemma SameBaseStandsFor(e: Tables, e': Tables, txs: seq<Tx>)
    requires e.vins == e'.vins && SameBase(e.rows, e'.rows) && StandsFor(e, txs)
    ensures StandsFor(e', txs)
  {
    hide HasInput;
    forall r <- e'.rows ensures HasOutput(txs, r) {
      var i :| 0 <= i < |e'.rows| && e'.rows[i] == r;
      assert Unspent(e.rows[i]) == Unspent(r) && HasOutput(txs, e.rows[i]);
      var t, j, k :| IsOutput(txs, t, j, k, e.rows[i]);
      assert IsOutput(txs, t, j, k, r);
    }
    forall t, j, k | AddressIn(txs, t, j, k) ensures HasOutputRow(e'.rows, txs, t, j, k) {
      var r :| r in e.rows && IsOutput(txs, t, j, k, r);
      var i :| 0 <= i < |e.rows| && e.rows[i] == r;
      assert Unspent(e'.rows[i]) == Unspent(r) && e'.rows[i] in e'.rows;
      assert IsOutput(txs, t, j, k, e'.rows[i]);
    }
  }

  const EMPTY := Tables([], [])

  /** After any history the tables stand for the transactions stored. */
  lemma HistoryStandsFor(blocks: seq<StoredBlock>)
    requires AllStored(EMPTY, blocks)
    ensures StandsFor(ExecAll(EMPTY, HistoryOps(blocks)), StoredTxs(blocks))
  {
    var e, txs, ops := ExecAll(EMPTY, HistoryOps(blocks)), StoredTxs(blocks), HistoryOps(blocks);
    hide InsertsVin, InsertsRow, HasInput, ExecAll, HistoryOps, StoredTxs, AllStored;
    StoredBlocksAre(EMPTY, blocks);
    forall v ensures v in e.vins <==> HasInput(txs, v) {
      VinsInserted(EMPTY, ops, v);
      HistoryInserts(EMPTY, blocks, v, Row("", 0, Outpoint(0, 0), 0, 0, None));
    }
    forall r <- e.rows ensures HasOutput(txs, r) {
      RowsInserted(EMPTY, ops, Unspent(r));
      HistoryInserts(EMPTY, blocks, Vin(0, 0, Outpoint(0, 0)), Unspent(r));
      var t, j, k :| IsOutput(txs, t, j, k, Unspent(r));
      assert IsOutput(txs, t, j, k, r);
    }
    forall t, j, k | AddressIn(txs, t, j, k) ensures HasOutputRow(e.rows, txs, t, j, k) {
      var u := HistoryHasOutputs(blocks, t, j, k);
      RowsInserted(EMPTY, ops, u);
      var r :| r in e.rows && Unspent(r) == u;
      assert IsOutput(txs, t, j, k, r);
    }
  }

  /** Input i of transaction t spends the outpoint. */
  ghost predicate SpentBy(txs: seq<Tx>, t: int, i: int, op: Outpoint) {
    0 <= t < |txs| && 0 <= i < |txs[t].ins| && txs[t].ins[i] == op && op.hash != ZERO_HASH
  }

  /** The row is marked spent exactly when some input spends its outpoint, and then names such an input. */
  ghost predicate TellsSpending(txs: seq<Tx>, r: Row) {
    && (r.spending.Some? <==> exists t, i :: SpentBy(txs, t, i, r.op))
    && (r.spending.Some? ==> exists t, i ::
      SpentBy(txs, t, i, r.op) && r.spending.value.txHash == txs[t].hash && r.spending.value.vinIndex == i)
  }

  lemma MarkedTellsSpending(e: Tables, txs: seq<Tx>, r: Row)
    requires StandsFor(e, txs) && Marked(e) && r in e.rows
    ensures TellsSpending(txs, r)
  {
    hide HasOutput, HasOutputRow;
    forall t, i | SpentBy(txs, t, i, r.op) ensures exists v <- e.vins :: Spends(v, r.op) {
      var v := Vin(txs[t].hash, i, txs[t].ins[i]);
      assert IsInput(txs, t, i, v);
      assert v in e.vins && Spends(v, r.op);
    }
    assert RowMarked(r, e.vins);
    if r.spending.Some? {
      var v := e.vins[r.spending.value.vinDbId - 1];
      assert v in e.vins && HasInput(txs, v);
      var t, i :| IsInput(txs, t, i, v);
      assert SpentBy(txs, t, i, r.op);
    }
  }

  lemma RebuiltStandsFor(blocks: seq<StoredBlock>, ids: seq<nat>)
    requires AllStored(EMPTY, blocks) && IdsWithin(ids, |StoredWithout(EMPTY, blocks).vins|)
    ensures StandsFor(Rebuilt(StoredWithout(EMPTY, blocks), ids), StoredTxs(blocks))
  {
    var ops, stored := HistoryOps(blocks), StoredWithout(EMPTY, blocks);
    HistoryStandsFor(blocks);
    NoMarksSame(EMPTY, EMPTY, ops);
    forall a <- BulkMarks(stored.vins, ids) ensures a.Mark? {
      BulkMarksAre(stored.vins, ids, a);
    }
    MarksKeepBase(stored, BulkMarks(stored.vins, ids));
    hide StandsFor, AllStored, ExecAll, BulkMarks;
    SameBaseStandsFor(ExecAll(EMPTY, ops), stored, StoredTxs(blocks));
    SameBaseStandsFor(stored, Rebuilt(stored, ids), StoredTxs(blocks));
  }

  /** After any history of stored blocks every row stands for an output of a stored transaction and every output
      has its rows. After a rebuild each is marked spent exactly when a stored input names its outpoint, with
      the transaction and place of such an input; after marking block by block too, if no tree of a block spends
      the other and no input was stored before the output it spends. */
  lemma HistoryTellsSpending(blocks: seq<StoredBlock>, ids: seq<nat>)
    requires AllStored(EMPTY, blocks) && IdsWithin(ids, |StoredWithout(EMPTY, blocks).vins|)
    requires forall id: nat :: 1 <= id <= |StoredWithout(EMPTY, blocks).vins| ==> id in ids
    ensures var txs := StoredTxs(blocks);
      var stepwise, rebuilt := ExecAll(EMPTY, HistoryOps(blocks)), Rebuilt(StoredWithout(EMPTY, blocks), ids);
      && StandsFor(stepwise, txs) && StandsFor(rebuilt, txs)
      && (forall r <- rebuilt.rows :: TellsSpending(txs, r))
      && (AllSeparate(EMPTY, blocks) ==> forall r <- stepwise.rows :: TellsSpending(txs, r))
  {
    var txs, stored := StoredTxs(blocks), StoredWithout(EMPTY, blocks);
    var stepwise, rebuilt := ExecAll(EMPTY, HistoryOps(blocks)), Rebuilt(stored, ids);
    HistoryStandsFor(blocks);
    RebuiltStandsFor(blocks, ids);
    HistoryDisciplined(EMPTY, blocks);
    if AllSeparate(EMPTY, blocks) {
      HistoryInOrder(EMPTY, blocks);
      NothingMarked();
      OrderMarks(EMPTY, HistoryOps(blocks));
    }
    assert Marked(rebuilt) by {
      NoMarksNoneWrong(EMPTY, HistoryOps(blocks), []);
      BulkMarksAll(stored, ids);
    }
    hide StandsFor, Marked, TellsSpending, ExecAll, HistoryOps, StoredTxs, AllStored, AllSeparate, BulkMarks;
    forall r <- rebuilt.rows ensures TellsSpending(txs, r) {
      MarkedTellsSpending(rebuilt, txs, r);
    }
    if AllSeparate(EMPTY, blocks) {
      forall r <- stepwise.rows ensures TellsSpending(txs, r) {
        MarkedTellsSpending(stepwise, txs, r);
      }
    }
  }

  lemma NothingMarked()
    ensures Marked(EMPTY)
  {
  }
}
