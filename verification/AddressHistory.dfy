/** Whole histories of stored blocks: marking spent outputs block by block against one rebuild at the end. */
module AddressHistory {
  import opened Options
  import opened AddressTable
  import opened AddressRuns

  /** A block as it was stored: its two transaction trees, and the order in which the database executed the
      statements of the two goroutines that store them. */
  datatype StoredBlock = StoredBlock(regular: Tree, stake: Tree, ops: seq<Op>)

  ghost predicate BlockStored(t: Tables, b: StoredBlock) {
    && b.regular.Valid() && b.stake.Valid()
    && Interleaving(b.ops, b.regular.Ops(), b.stake.Ops()) && IdsRight(t.vins, b.ops)
  }

  /** Neither tree spends a row of the other, and no input stored earlier spends a row of the block. */
  ghost predicate BlockSeparate(t: Tables, b: StoredBlock)
    requires b.regular.Valid() && b.stake.Valid()
  {
    && SpendsNone(t.vins, b.regular.Ops()) && SpendsNone(t.vins, b.stake.Ops())
    && SpendsNone(AllVinsOf(b.stake.txs), b.regular.Ops()) && SpendsNone(AllVinsOf(b.regular.txs), b.stake.Ops())
  }

  ghost predicate AllStored(t: Tables, blocks: seq<StoredBlock>)
    decreases |blocks|
  {
    blocks != [] ==> BlockStored(t, blocks[0]) && AllStored(ExecAll(t, blocks[0].ops), blocks[1..])
  }

  ghost predicate AllSeparate(t: Tables, blocks: seq<StoredBlock>)
    requires AllStored(t, blocks)
    decreases |blocks|
  {
    blocks != [] ==> BlockSeparate(t, blocks[0]) && AllSeparate(ExecAll(t, blocks[0].ops), blocks[1..])
  }

  function HistoryOps(blocks: seq<StoredBlock>): seq<Op>
    decreases |blocks|
  {
    if blocks == [] then [] else blocks[0].ops + HistoryOps(blocks[1..])
  }

  // ---------------------------------------------------------------------------------------------
  // Every block marks its inputs after inserting them

  ghost predicate Within(mine: seq<Vin>, vins: seq<Vin>) {
    forall v <- mine :: v in vins
  }

  lemma {:induction false} MergeDisciplined(
    mine: seq<Vin>, theirs: seq<Vin>, vins: seq<Vin>, c: seq<Op>, a: seq<Op>, b: seq<Op>)
    requires Interleaving(c, a, b) && Within(mine, vins) && Within(theirs, vins)
    requires Disciplined(mine, a) && Disciplined(theirs, b)
    ensures Disciplined(vins, c)
    decreases |c|
  {
    hide MarkComes;
    if c != [] {
      if a != [] && a[0] == c[0] && Interleaving(c[1..], a[1..], b) {
        var added := if a[0].AddVins? then a[0].vins else [];
        assert mine + [] == mine && vins + [] == vins;
        MergeDisciplined(mine + added, theirs, vins + added, c[1..], a[1..], b);
        forall v | MarkComes(v, a[1..]) ensures MarkComes(v, c[1..]) {
          MarkComesInBoth(v, c[1..], a[1..], b);
        }
      } else {
        var added := if b[0].AddVins? then b[0].vins else [];
        assert theirs + [] == theirs && vins + [] == vins;
        MergeDisciplined(mine, theirs + added, vins + added, c[1..], a, b[1..]);
        InterleavingSwaps(c[1..], a, b[1..]);
        forall v | MarkComes(v, b[1..]) ensures MarkComes(v, c[1..]) {
          MarkComesInBoth(v, c[1..], b[1..], a);
        }
      }
    }
  }

  lemma {:induction false} DisciplinedTwice(t: Tables, a: seq<Op>, b: seq<Op>)
    requires Disciplined(t.vins, a) && Disciplined(ExecAll(t, a).vins, b)
    ensures Disciplined(t.vins, a + b)
    decreases |a|
  {
    hide SetSpending;
    if a == [] {
      assert a + b == b;
    } else {
      assert (a + b)[0] == a[0] && (a + b)[1..] == a[1..] + b;
      forall v | MarkComes(v, a[1..]) ensures MarkComes(v, a[1..] + b) {
        MarkComesJoined(v, a[1..], b);
      }
      DisciplinedTwice(Exec(t, a[0]), a[1..], b);
    }
  }

  lemma {:induction false} HistoryDisciplined(t: Tables, blocks: seq<StoredBlock>)
    requires AllStored(t, blocks)
    ensures Disciplined(t.vins, HistoryOps(blocks)) && IdsRight(t.vins, HistoryOps(blocks))
    decreases |blocks|
  {
    if blocks != [] {
      var b, rest := blocks[0], HistoryOps(blocks[1..]);
      TreeInOrder(b.regular);
      TreeInOrder(b.stake);
      hide Disciplined, IdsRight, Interleaving, RowsInTime;
      MergeDisciplined([], [], t.vins, b.ops, b.regular.Ops(), b.stake.Ops());
      HistoryDisciplined(ExecAll(t, b.ops), blocks[1..]);
      DisciplinedTwice(t, b.ops, rest);
      ExecTwice(t, b.ops, rest);
    }
  }

  lemma {:induction false} HistoryInOrder(t: Tables, blocks: seq<StoredBlock>)
    requires AllStored(t, blocks) && AllSeparate(t, blocks)
    ensures InOrder(t.vins, HistoryOps(blocks))
    decreases |blocks|
  {
    if blocks == [] {
      NothingInOrder(t.vins);
    } else {
      hide InOrder, IdsRight, Interleaving, SpendsNone;
      var b, rest := blocks[0], HistoryOps(blocks[1..]);
      BlockInOrder(t, b);
      HistoryInOrder(ExecAll(t, b.ops), blocks[1..]);
      InOrderTwice(t, b.ops, rest);
    }
  }

  lemma BlockInOrder(t: Tables, b: StoredBlock)
    requires BlockStored(t, b) && BlockSeparate(t, b)
    ensures InOrder(t.vins, b.ops)
  {
    TreeInOrder(b.regular);
    TreeInOrder(b.stake);
    var a, c := b.regular.Ops(), b.stake.Ops();
    assert [] + NewVins(a) == NewVins(a) && [] + NewVins(c) == NewVins(c);
    hide InOrder, SpendsNone, Interleaving, IdsRight;
    assert Apart(t.vins, [], [], t.vins, a, c);
    MergeInOrder(t.vins, [], [], t.vins, b.ops, a, c);
  }

  // ---------------------------------------------------------------------------------------------
  // Whole histories

  /** What the rebuild is run on, and what it comes to. */
  ghost function StoredWithout(t: Tables, blocks: seq<StoredBlock>): Tables {
    ExecAll(t, NoMarks(HistoryOps(blocks)))
  }

  ghost function Rebuilt(t: Tables, ids: seq<nat>): Tables
    requires IdsWithin(ids, |t.vins|)
  {
    ExecAll(t, BulkMarks(t.vins, ids))
  }

  /** For any history of stored blocks, the rows that marking block by block leaves and those of one rebuild at
      the end differ in no more than the spending row id if and only if every row was inserted before the mark
      of the input that spends it. The rebuild is right in either case. */
  lemma HistoryExact(t: Tables, blocks: seq<StoredBlock>, ids: seq<nat>)
    requires Marked(t) && AllStored(t, blocks) && NoDoubleSpend(ExecAll(t, HistoryOps(blocks)).vins)
    requires IdsWithin(ids, |StoredWithout(t, blocks).vins|)
    requires forall id: nat :: 1 <= id <= |StoredWithout(t, blocks).vins| ==> id in ids
    ensures var rebuilt := Rebuilt(StoredWithout(t, blocks), ids);
      && Marked(rebuilt) && rebuilt.vins == ExecAll(t, HistoryOps(blocks)).vins
      && (SameMarks(ExecAll(t, HistoryOps(blocks)).rows, rebuilt.rows) <==> RowsInTime(t.vins, HistoryOps(blocks)))
  {
    HistoryDisciplined(t, blocks);
    hide Marked, Disciplined, IdsRight, NoDoubleSpend, AllStored, RowsInTime, SameMarks, IdsWithin;
    BulkEqualsIncremental(t, HistoryOps(blocks), ids);
  }

  /** For blocks whose trees do not spend each other's rows, nor are spent by earlier inputs, the two agree,
      and both mark every row rightly. */
  lemma HistoryRebuilds(t: Tables, blocks: seq<StoredBlock>, ids: seq<nat>)
    requires Marked(t) && AllStored(t, blocks) && NoDoubleSpend(ExecAll(t, HistoryOps(blocks)).vins)
    requires AllSeparate(t, blocks)
    requires IdsWithin(ids, |StoredWithout(t, blocks).vins|)
    requires forall id: nat :: 1 <= id <= |StoredWithout(t, blocks).vins| ==> id in ids
    ensures var rebuilt := Rebuilt(StoredWithout(t, blocks), ids);
      && SameMarks(ExecAll(t, HistoryOps(blocks)).rows, rebuilt.rows)
      && Marked(rebuilt) && Marked(ExecAll(t, HistoryOps(blocks)))
  {
    HistoryInOrder(t, blocks);
    HistoryDisciplined(t, blocks);
    hide Marked, Disciplined, IdsRight, NoDoubleSpend, AllStored, AllSeparate, RowsInTime, SameMarks, IdsWithin;
    OrderMarks(t, HistoryOps(blocks));
    HistoryExact(t, blocks, ids);
  }

  // ---------------------------------------------------------------------------------------------
  // A block whose trees do spend each other

  /** A coinbase with one output to an address. */
  function FundingTree(): Tree {
    Tree([Tx(1, [Outpoint(ZERO_HASH, 0)], [Out(["a"], 5)])], [1], [[1]], [[2]])
  }

  /** A transaction that spends it. */
  function SpendingTree(): Tree {
    Tree([Tx(2, [Outpoint(1, 0)], [])], [2], [[]], [[1]])
  }

  const FUNDED := Row("a", 1, Outpoint(1, 0), 1, 5, None)
  const COINBASE_INPUT := Vin(1, 0, Outpoint(ZERO_HASH, 0))
  const SPENDER := Vin(2, 0, Outpoint(1, 0))

  lemma OneTx(tree: Tree)
    requires tree.Valid() && |tree.txs| == 1
    ensures var tx, ids := tree.txs[0], tree.voutIds[0];
      tree.Ops() == [AddVins(VinsOf(tx)), AddRows(RowsOfTx(tx, tree.txIds[0], ids, |tx.outs|))] +
        MarksOf(VinsOf(tx), tree.txIds[0], tree.vinIds[0])
  {
    var tx := tree.txs[0];
    assert tree.txs[..0] == [];
    assert Inserts(tree.txs) == [] + [AddVins(VinsOf(tx))];
    assert tree.Rows(0) == [] && tree.Marks(0) == [];
    assert tree.Rows(1) == RowsOfTx(tx, tree.txIds[0], tree.voutIds[0], |tx.outs|);
    assert tree.Marks(1) == MarksOf(VinsOf(tx), tree.txIds[0], tree.vinIds[0]);
  }

  lemma OneMark(v: Vin, txId: nat, id: nat)
    ensures MarksOf([v], txId, [id]) == if v.prev.hash != ZERO_HASH then [Mark(v, txId, id)] else []
  {
    var vins, ids := [v], [id];
    assert vins[..0] == [] && ids[..0] == [];
    assert MarksOf(vins[..0], txId, ids[..0]) == [];
  }

  lemma FundingOps()
    ensures FundingTree().Ops() == [AddVins([COINBASE_INPUT]), AddRows([FUNDED])]
  {
    var tree := FundingTree();
    var tx := tree.txs[0];
    OneTx(tree);
    assert VinsOf(tx) == [COINBASE_INPUT];
    assert RowsOfTx(tx, 1, [1], 0) == [];
    assert RowsOfOut(tx, 0, 1, 1) == [FUNDED];
    assert RowsOfTx(tx, 1, [1], 1) == [FUNDED];
    OneMark(COINBASE_INPUT, 1, 2);
  }

  lemma SpendingOps()
    ensures SpendingTree().Ops() == [AddVins([SPENDER]), AddRows([]), Mark(SPENDER, 2, 1)]
  {
    var tree := SpendingTree();
    var tx := tree.txs[0];
    OneTx(tree);
    assert VinsOf(tx) == [SPENDER];
    assert RowsOfTx(tx, 2, [], 0) == [];
    OneMark(SPENDER, 2, 1);
    assert tree.vinIds[0] == [1];
    assert MarksOf(VinsOf(tx), tree.txIds[0], tree.vinIds[0]) == [Mark(SPENDER, 2, 1)];
    var rows := RowsOfTx(tx, tree.txIds[0], tree.voutIds[0], |tx.outs|);
    assert rows == [];
    assert [AddVins([SPENDER]), AddRows(rows)] + [Mark(SPENDER, 2, 1)] ==
      [AddVins([SPENDER]), AddRows([]), Mark(SPENDER, 2, 1)];
  }

  lemma FiveOps(a: Op, b: Op, c: Op, d: Op, e: Op, t: Tables)
    ensures ExecAll(t, [a, b, c, d, e]) == Exec(Exec(Exec(Exec(Exec(t, a), b), c), d), e)
  {
    hide Exec;
    assert [a, b, c, d, e][1..] == [b, c, d, e] && [b, c, d, e][1..] == [c, d, e];
    assert [c, d, e][1..] == [d, e] && [d, e][1..] == [e];
    var u := Exec(Exec(Exec(t, a), b), c);
    assert ExecAll(t, [a, b, c, d, e]) == ExecAll(Exec(t, a), [b, c, d, e]);
    assert ExecAll(Exec(t, a), [b, c, d, e]) == ExecAll(Exec(Exec(t, a), b), [c, d, e]);
    assert ExecAll(Exec(Exec(t, a), b), [c, d, e]) == ExecAll(u, [d, e]);
    assert ExecAll(u, [d, e]) == ExecAll(Exec(u, d), [e]);
    assert ExecAll(Exec(u, d), [e]) == ExecAll(Exec(Exec(u, d), e), [e][1..]);
  }

  /** When the tree that spends is stored first, its mark finds no row: marking leaves the output unspent,
      which the rebuild does not. */
  lemma CrossTreeSpendIsMissed()
    ensures var b := StoredBlock(FundingTree(), SpendingTree(), SpendingTree().Ops() + FundingTree().Ops());
      var t := Tables([], []);
      && BlockStored(t, b) && NoDoubleSpend(ExecAll(t, b.ops).vins)
      && ExecAll(t, b.ops) == Tables([SPENDER, COINBASE_INPUT], [FUNDED])
      && !Marked(ExecAll(t, b.ops)) && !RowsInTime(t.vins, b.ops)
  {
    var regular, stake, t := FundingTree(), SpendingTree(), Tables([], []);
    var b := StoredBlock(regular, stake, stake.Ops() + regular.Ops());
    SequentialInterleaves(stake.Ops(), regular.Ops());
    InterleavingSwaps(b.ops, stake.Ops(), regular.Ops());
    SmallIds();
    hide IdsRight, Interleaving, ExecAll, RowsInTime, Disciplined;
    assert BlockStored(t, b);
    SpendingFirst();
    HistoryOfOne(t, b);
    assert FUNDED in [FUNDED] && SPENDER in [SPENDER, COINBASE_INPUT] && !RowMarked(FUNDED, [SPENDER, COINBASE_INPUT]);
    if RowsInTime(t.vins, b.ops) {
      OrderMarks(t, b.ops);
    }
  }

  lemma SpendingFirst()
    ensures ExecAll(Tables([], []), SpendingTree().Ops() + FundingTree().Ops()) ==
      Tables([SPENDER, COINBASE_INPUT], [FUNDED])
  {
    FundingOps();
    SpendingOps();
    var t, ops := Tables([], []), SpendingTree().Ops() + FundingTree().Ops();
    assert ops == [AddVins([SPENDER]), AddRows([]), Mark(SPENDER, 2, 1), AddVins([COINBASE_INPUT]), AddRows([FUNDED])];
    FiveOps(ops[0], ops[1], ops[2], ops[3], ops[4], t);
    hide ExecAll;
    assert [] + [SPENDER] == [SPENDER] && SetSpending([], SPENDER.prev, SpendingOf(ops[2])) == [];
  }

  lemma SmallIds()
    ensures IdsRight([], SpendingTree().Ops() + FundingTree().Ops())
  {
    FundingOps();
    SpendingOps();
    var t := Tables([], []);
    ExecTwice(t, SpendingTree().Ops(), FundingTree().Ops());
    var mark := Mark(SPENDER, 2, 1);
    assert [AddVins([SPENDER]), AddRows([]), mark][1..] == [AddRows([]), mark] && [AddRows([]), mark][1..] == [mark];
    assert [] + [SPENDER] == [SPENDER];
    assert IdsRight([SPENDER], [mark]) by {
      assert [mark][1..] == [];
    }
    assert IdsRight([SPENDER], [AddRows([]), mark]);
    var vins := ExecAll(t, SpendingTree().Ops()).vins;
    assert [AddVins([COINBASE_INPUT]), AddRows([FUNDED])][1..] == [AddRows([FUNDED])];
    assert IdsRight(vins + [COINBASE_INPUT], [AddRows([FUNDED])]) by {
      assert [AddRows([FUNDED])][1..] == [];
    }
  }

  lemma HistoryOfOne(t: Tables, b: StoredBlock)
    requires BlockStored(t, b)
    ensures Disciplined(t.vins, b.ops)
  {
    HistoryDisciplined(t, [b]);
    assert [b][1..] == [] && HistoryOps([b]) == b.ops + [] && b.ops + [] == b.ops;
  }
}
