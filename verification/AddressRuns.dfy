/** Storing blocks: the statements of the two transaction trees of a block, in any interleaving, and the bulk
    rebuild of the spending columns. */
module AddressRuns {
  import opened Options
  import opened AddressTable

  // ---------------------------------------------------------------------------------------------
  // Two trees at once

  /** c is made of a and b, each in its own order. */
  ghost predicate Interleaving(c: seq<Op>, a: seq<Op>, b: seq<Op>)
    decreases |c|
  {
    if c == [] then a == [] && b == []
    else
      || (a != [] && a[0] == c[0] && Interleaving(c[1..], a[1..], b))
      || (b != [] && b[0] == c[0] && Interleaving(c[1..], a, b[1..]))
  }

  lemma {:induction false} InterleavingSwaps(c: seq<Op>, a: seq<Op>, b: seq<Op>)
    requires Interleaving(c, a, b)
    ensures Interleaving(c, b, a)
    decreases |c|
  {
    if c != [] {
      if a != [] && a[0] == c[0] && Interleaving(c[1..], a[1..], b) {
        InterleavingSwaps(c[1..], a[1..], b);
      } else {
        InterleavingSwaps(c[1..], a, b[1..]);
      }
    }
  }

  lemma {:induction false} InterleavingHasAll(c: seq<Op>, a: seq<Op>, b: seq<Op>)
    requires Interleaving(c, a, b)
    ensures forall x :: x in c <==> x in a || x in b
    decreases |c|
  {
    if c != [] {
      assert forall x :: x in c <==> x == c[0] || x in c[1..];
      if a != [] && a[0] == c[0] && Interleaving(c[1..], a[1..], b) {
        InterleavingHasAll(c[1..], a[1..], b);
        assert forall x :: x in a <==> x == a[0] || x in a[1..];
      } else {
        InterleavingHasAll(c[1..], a, b[1..]);
        assert forall x :: x in b <==> x == b[0] || x in b[1..];
      }
    }
  }

  /** One tree after the other is one interleaving. */
  lemma {:induction false} SequentialInterleaves(a: seq<Op>, b: seq<Op>)
    ensures Interleaving(a + b, a, b)
    decreases |a| + |b|
  {
    if a != [] {
      assert (a + b)[1..] == a[1..] + b;
      SequentialInterleaves(a[1..], b);
    } else if b != [] {
      assert a + b == b && b[1..] == a + b[1..];
      SequentialInterleaves(a, b[1..]);
    }
  }

  lemma MarkComesInBoth(v: Vin, c: seq<Op>, a: seq<Op>, b: seq<Op>)
    requires Interleaving(c, a, b) && MarkComes(v, a)
    ensures MarkComes(v, c)
  {
    InterleavingHasAll(c, a, b);
  }

  /** The inputs that statements insert. */
  function NewVins(ops: seq<Op>): seq<Vin>
    decreases |ops|
  {
    if ops == [] then [] else (if ops[0].AddVins? then ops[0].vins else []) + NewVins(ops[1..])
  }

  /** None of the inputs spends a row that the statements insert. */
  ghost predicate SpendsNone(vins: seq<Vin>, ops: seq<Op>) {
    forall a <- ops, v <- vins :: a.AddRows? ==> RowsFree(a.rows, v)
  }

  ghost predicate RowsFree(rows: seq<Row>, v: Vin) {
    forall r <- rows :: !Spends(v, r.op)
  }

  ghost predicate InOrder(vins: seq<Vin>, ops: seq<Op>) {
    Disciplined(vins, ops) && RowsInTime(vins, ops)
  }

  /** What one tree, with its own inputs mine, and the other, with theirs, have done so far. */
  ghost predicate Apart(old_: seq<Vin>, mine: seq<Vin>, theirs: seq<Vin>, vins: seq<Vin>, a: seq<Op>, b: seq<Op>) {
    && (forall v <- mine :: v in vins) && (forall v <- theirs :: v in vins)
    && (forall v <- vins :: v in old_ || v in mine || v in theirs)
    && SpendsNone(old_, a) && SpendsNone(theirs + NewVins(b), a)
    && SpendsNone(old_, b) && SpendsNone(mine + NewVins(a), b)
  }

  lemma StepInOrder(old_: seq<Vin>, mine: seq<Vin>, theirs: seq<Vin>, vins: seq<Vin>, c: seq<Op>, a: seq<Op>, b: seq<Op>)
    requires Apart(old_, mine, theirs, vins, a, b)
    requires InOrder(mine, a) && a != [] && c != [] && a[0] == c[0] && Interleaving(c[1..], a[1..], b)
    ensures var added := if a[0].AddVins? then a[0].vins else [];
      && Apart(old_, mine + added, theirs, vins + added, a[1..], b)
      && InOrder(mine + added, a[1..])
      && (InOrder(vins + added, c[1..]) ==> InOrder(vins, c))
  {
    var x, added := a[0], if a[0].AddVins? then a[0].vins else [];
    assert NewVins(a) == added + NewVins(a[1..]);
    assert (mine + added) + NewVins(a[1..]) == mine + NewVins(a);
    assert forall y :: y in a[1..] ==> y in a;
    assert mine + [] == mine && vins + [] == vins;
    if x.AddVins? {
      forall v | v in x.vins && v.prev.hash != ZERO_HASH ensures MarkComes(v, c[1..]) {
        MarkComesInBoth(v, c[1..], a[1..], b);
      }
    } else if x.AddRows? {
      forall r, v | r in x.rows && v in vins && Spends(v, r.op) ensures MarkComes(v, c[1..]) {
        assert x in a;
        assert v in old_ ==> RowsFree(x.rows, v);
        assert v in theirs + NewVins(b) ==> RowsFree(x.rows, v);
        MarkComesInBoth(v, c[1..], a[1..], b);
      }
    }
  }

  lemma {:induction false} MergeInOrder(
    old_: seq<Vin>, mine: seq<Vin>, theirs: seq<Vin>, vins: seq<Vin>, c: seq<Op>, a: seq<Op>, b: seq<Op>)
    requires Interleaving(c, a, b) && Apart(old_, mine, theirs, vins, a, b)
    requires InOrder(mine, a) && InOrder(theirs, b)
    ensures InOrder(vins, c)
    decreases |c|
  {
    hide InOrder, Apart;
    if c == [] {
      NothingInOrder(vins);
    } else if a != [] && a[0] == c[0] && Interleaving(c[1..], a[1..], b) {
      StepInOrder(old_, mine, theirs, vins, c, a, b);
      var added := if a[0].AddVins? then a[0].vins else [];
      MergeInOrder(old_, mine + added, theirs, vins + added, c[1..], a[1..], b);
    } else {
      ApartSwaps(old_, mine, theirs, vins, a, b);
      InterleavingSwaps(c[1..], a, b[1..]);
      StepInOrder(old_, theirs, mine, vins, c, b, a);
      var added := if b[0].AddVins? then b[0].vins else [];
      ApartSwaps(old_, theirs + added, mine, vins + added, b[1..], a);
      MergeInOrder(old_, mine, theirs + added, vins + added, c[1..], a, b[1..]);
    }
  }

  lemma NothingInOrder(vins: seq<Vin>)
    ensures InOrder(vins, [])
  {
  }

  lemma ApartSwaps(old_: seq<Vin>, mine: seq<Vin>, theirs: seq<Vin>, vins: seq<Vin>, a: seq<Op>, b: seq<Op>)
    requires Apart(old_, mine, theirs, vins, a, b)
    ensures Apart(old_, theirs, mine, vins, b, a)
  {
    hide SpendsNone;
  }

  // ---------------------------------------------------------------------------------------------
  // The statements of one tree

  datatype Out = Out(addresses: seq<string>, value: nat)

  datatype Tx = Tx(hash: TxId, ins: seq<Outpoint>, outs: seq<Out>)

  function VinsOf(tx: Tx): (vins: seq<Vin>)
    ensures |vins| == |tx.ins| && forall i :: 0 <= i < |vins| ==> vins[i] == Vin(tx.hash, i, tx.ins[i])
  {
    seq(|tx.ins|, i requires 0 <= i < |tx.ins| => Vin(tx.hash, i, tx.ins[i]))
  }

  function AllVinsOf(txs: seq<Tx>): seq<Vin> {
    if txs == [] then [] else AllVinsOf(txs[..|txs| - 1]) + VinsOf(txs[|txs| - 1])
  }

  function Inserts(txs: seq<Tx>): seq<Op> {
    if txs == [] then [] else Inserts(txs[..|txs| - 1]) + [AddVins(VinsOf(txs[|txs| - 1]))]
  }

  /** One unspent row for every address of output j. */
  function RowsOfOut(tx: Tx, j: nat, txId: nat, voutId: nat): (rows: seq<Row>)
    requires j < |tx.outs|
    ensures |rows| == |tx.outs[j].addresses| && forall r <- rows :: r.spending.None?
  {
    var out := tx.outs[j];
    seq(|out.addresses|, k requires 0 <= k < |out.addresses| =>
      Row(out.addresses[k], txId, Outpoint(tx.hash, j), voutId, out.value, None))
  }

  /** The rows of the first n outputs. */
  function RowsOfTx(tx: Tx, txId: nat, voutIds: seq<nat>, n: nat): (rows: seq<Row>)
    requires n <= |tx.outs| == |voutIds|
    ensures forall r <- rows :: r.spending.None?
  {
    if n == 0 then [] else RowsOfTx(tx, txId, voutIds, n - 1) + RowsOfOut(tx, n - 1, txId, voutIds[n - 1])
  }

  /** A mark for every input that spends something. */
  function MarksOf(vins: seq<Vin>, txId: nat, ids: seq<nat>): seq<Op>
    requires |ids| == |vins|
  {
    if vins == [] then []
    else
      var n := |vins| - 1;
      MarksOf(vins[..n], txId, ids[..n]) + if vins[n].prev.hash != ZERO_HASH then [Mark(vins[n], txId, ids[n])] else []
  }

  /** A transaction tree, with the ids that the database gave to its transactions, outputs and inputs. */
  datatype Tree = Tree(txs: seq<Tx>, txIds: seq<nat>, voutIds: seq<seq<nat>>, vinIds: seq<seq<nat>>) {
    predicate Valid() {
      && |txIds| == |voutIds| == |vinIds| == |txs|
      && forall i :: 0 <= i < |txs| ==> |voutIds[i]| == |txs[i].outs| && |vinIds[i]| == |txs[i].ins|
    }

    function Rows(n: nat): (rows: seq<Row>)
      requires Valid() && n <= |txs|
      ensures forall r <- rows :: r.spending.None?
    {
      if n == 0 then [] else Rows(n - 1) + RowsOfTx(txs[n - 1], txIds[n - 1], voutIds[n - 1], |txs[n - 1].outs|)
    }

    function Marks(n: nat): seq<Op>
      requires Valid() && n <= |txs|
    {
      if n == 0 then [] else Marks(n - 1) + MarksOf(VinsOf(txs[n - 1]), txIds[n - 1], vinIds[n - 1])
    }

    /** Storing the tree without spending info: the inputs of each transaction, then all the rows. */
    function StoreOps(): seq<Op>
      requires Valid()
    {
      Inserts(txs) + [AddRows(Rows(|txs|))]
    }

    /** Storing it with spending info: then the marks. */
    function Ops(): seq<Op>
      requires Valid()
    {
      StoreOps() + Marks(|txs|)
    }
  }

  lemma {:induction false} MarksInOrder(vins: seq<Vin>, marks: seq<Op>)
    requires forall a <- marks :: a.Mark? && a.vin in vins && a.vin.prev.hash != ZERO_HASH
    ensures InOrder(vins, marks)
    decreases |marks|
  {
    if marks != [] {
      assert marks[0] in marks && forall a <- marks[1..] :: a in marks;
      MarksInOrder(vins, marks[1..]);
    }
  }

  lemma AddInOrder(vins: seq<Vin>, more: seq<Vin>, tail: seq<Op>)
    requires InOrder(vins + more, tail)
    requires forall v <- more :: v.prev.hash != ZERO_HASH ==> MarkComes(v, tail)
    ensures var tail' := [AddVins(more)] + tail; InOrder(vins, tail') && NewVins(tail') == more + NewVins(tail)
  {
    hide MarkComes;
    var tail' := [AddVins(more)] + tail;
    assert tail'[0] == AddVins(more) && tail'[1..] == tail;
  }

  lemma MarkStillComes(v: Vin, a: Op, ops: seq<Op>)
    requires MarkComes(v, ops)
    ensures MarkComes(v, [a] + ops)
  {
    var x :| x in ops && x.Mark? && x.vin == v;
    assert x in [a] + ops;
  }

  lemma {:induction false} InsertsInOrder(vins: seq<Vin>, txs: seq<Tx>, tail: seq<Op>)
    requires InOrder(vins + AllVinsOf(txs), tail)
    requires forall v <- AllVinsOf(txs) :: v.prev.hash != ZERO_HASH ==> MarkComes(v, tail)
    ensures InOrder(vins, Inserts(txs) + tail)
    ensures NewVins(Inserts(txs) + tail) == AllVinsOf(txs) + NewVins(tail)
    decreases |txs|
  {
    hide VinsOf, InOrder, MarkComes, NewVins;
    if txs == [] {
      assert vins + [] == vins && Inserts(txs) + tail == tail && [] + NewVins(tail) == NewVins(tail);
    } else {
      var rest, last := txs[..|txs| - 1], VinsOf(txs[|txs| - 1]);
      var tail' := [AddVins(last)] + tail;
      assert (vins + AllVinsOf(rest)) + last == vins + AllVinsOf(txs);
      assert forall v <- last :: v in AllVinsOf(txs);
      AddInOrder(vins + AllVinsOf(rest), last, tail);
      forall v <- AllVinsOf(rest) | v.prev.hash != ZERO_HASH ensures MarkComes(v, tail') {
        assert v in AllVinsOf(txs);
        MarkStillComes(v, AddVins(last), tail);
      }
      InsertsInOrder(vins, rest, tail');
      assert Inserts(txs) + tail == Inserts(rest) + tail';
      assert AllVinsOf(rest) + NewVins(tail') == AllVinsOf(txs) + NewVins(tail);
    }
  }

  lemma {:induction false} MarksAddNothing(marks: seq<Op>)
    requires forall a <- marks :: a.Mark?
    ensures NewVins(marks) == []
    decreases |marks|
  {
    if marks != [] {
      assert marks[0] in marks && forall a <- marks[1..] :: a in marks;
      MarksAddNothing(marks[1..]);
    }
  }

  lemma MarkComesJoined(v: Vin, a: seq<Op>, b: seq<Op>)
    requires MarkComes(v, a) || MarkComes(v, b)
    ensures MarkComes(v, a + b)
  {
    var x :| (x in a || x in b) && x.Mark? && x.vin == v;
    assert x in a + b;
  }

  /** The marks are for the inputs that spend something, all of them and no others. */
  ghost predicate MarksExactly(marks: seq<Op>, vins: seq<Vin>) {
    && (forall a <- marks :: a.Mark? && a.vin in vins && a.vin.prev.hash != ZERO_HASH)
    && (forall v <- vins :: v.prev.hash != ZERO_HASH ==> MarkComes(v, marks))
  }

  lemma MarksJoined(marks: seq<Op>, vins: seq<Vin>, marks': seq<Op>, vins': seq<Vin>)
    requires MarksExactly(marks, vins) && MarksExactly(marks', vins')
    ensures MarksExactly(marks + marks', vins + vins')
  {
    forall v <- vins + vins' | v.prev.hash != ZERO_HASH ensures MarkComes(v, marks + marks') {
      MarkComesJoined(v, marks, marks');
    }
  }

  lemma {:induction false} MarksOfExactly(vins: seq<Vin>, txId: nat, ids: seq<nat>)
    requires |ids| == |vins|
    ensures MarksExactly(MarksOf(vins, txId, ids), vins)
    decreases |vins|
  {
    if vins != [] {
      var n := |vins| - 1;
      MarksOfExactly(vins[..n], txId, ids[..n]);
      var last := if vins[n].prev.hash != ZERO_HASH then [Mark(vins[n], txId, ids[n])] else [];
      if last != [] {
        assert last[0] in last && MarkComes(vins[n], last);
      }
      assert MarksExactly(last, [vins[n]]);
      MarksJoined(MarksOf(vins[..n], txId, ids[..n]), vins[..n], last, [vins[n]]);
      assert vins == vins[..n] + [vins[n]];
    }
  }

  lemma {:induction false} TreeMarksExactly(tree: Tree, n: nat)
    requires tree.Valid() && n <= |tree.txs|
    ensures MarksExactly(tree.Marks(n), AllVinsOf(tree.txs[..n]))
    decreases n
  {
    hide VinsOf;
    if n > 0 {
      TreeMarksExactly(tree, n - 1);
      assert tree.txs[..n][..n - 1] == tree.txs[..n - 1];
      MarksOfExactly(VinsOf(tree.txs[n - 1]), tree.txIds[n - 1], tree.vinIds[n - 1]);
      MarksJoined(tree.Marks(n - 1), AllVinsOf(tree.txs[..n - 1]),
        MarksOf(VinsOf(tree.txs[n - 1]), tree.txIds[n - 1], tree.vinIds[n - 1]), VinsOf(tree.txs[n - 1]));
    }
  }

  lemma TailInOrder(vins: seq<Vin>, rows: seq<Row>, marks: seq<Op>)
    requires InOrder(vins, marks) && NewVins(marks) == [] && forall r <- rows :: r.spending.None?
    requires forall v <- vins :: v.prev.hash != ZERO_HASH ==> MarkComes(v, marks)
    ensures var tail := [AddRows(rows)] + marks;
      && InOrder(vins, tail) && NewVins(tail) == []
      && (forall v <- vins :: v.prev.hash != ZERO_HASH ==> MarkComes(v, tail))
  {
    var tail := [AddRows(rows)] + marks;
    assert tail[1..] == marks;
    forall v <- vins | v.prev.hash != ZERO_HASH ensures MarkComes(v, tail) {
      var a :| a in marks && a.Mark? && a.vin == v;
      assert a in tail;
    }
  }

  /** On its own a tree marks each of its inputs after all its rows are there. */
  lemma TreeInOrder(tree: Tree)
    requires tree.Valid()
    ensures InOrder([], tree.Ops()) && NewVins(tree.Ops()) == AllVinsOf(tree.txs)
  {
    hide InOrder, MarkComes, Inserts, AllVinsOf;
    var n := |tree.txs|;
    var vins, rows, marks := AllVinsOf(tree.txs), tree.Rows(n), tree.Marks(n);
    assert [] + vins == vins && vins + [] == vins && tree.txs[..n] == tree.txs;
    TreeMarksExactly(tree, n);
    MarksInOrder(vins, marks);
    MarksAddNothing(marks);
    TailInOrder(vins, rows, marks);
    InsertsInOrder([], tree.txs, [AddRows(rows)] + marks);
    assert tree.Ops() == Inserts(tree.txs) + ([AddRows(rows)] + marks);
  }

  /** Storing a block marks every row rightly, however the statements of its two trees interleave, if neither
      tree spends a row of the other and no earlier input spends a row of the block. */
  lemma BlockKeepsMarks(t: Tables, regular: Tree, stake: Tree, c: seq<Op>)
    requires Marked(t) && regular.Valid() && stake.Valid()
    requires Interleaving(c, regular.Ops(), stake.Ops()) && IdsRight(t.vins, c)
    requires SpendsNone(t.vins, regular.Ops()) && SpendsNone(t.vins, stake.Ops())
    requires SpendsNone(AllVinsOf(stake.txs), regular.Ops()) && SpendsNone(AllVinsOf(regular.txs), stake.Ops())
    ensures InOrder(t.vins, c) && Marked(ExecAll(t, c))
  {
    TreeInOrder(regular);
    TreeInOrder(stake);
    assert [] + NewVins(stake.Ops()) == NewVins(stake.Ops()) && [] + NewVins(regular.Ops()) == NewVins(regular.Ops());
    hide InOrder, SpendsNone, Interleaving, IdsRight, Marked;
    assert Apart(t.vins, [], [], t.vins, regular.Ops(), stake.Ops());
    MergeInOrder(t.vins, [], [], t.vins, c, regular.Ops(), stake.Ops());
    OrderMarks(t, c);
  }

  lemma OrderMarks(t: Tables, c: seq<Op>)
    requires Marked(t) && InOrder(t.vins, c) && IdsRight(t.vins, c)
    ensures Marked(ExecAll(t, c))
  {
    MarkedIsPending(t, c);
    InTimeMarks(t, c);
  }

  // ---------------------------------------------------------------------------------------------
  // The bulk rebuild

  predicate IdsWithin(ids: seq<nat>, n: nat) {
    forall k :: 0 <= k < |ids| ==> 1 <= ids[k] <= n
  }

  /** The marks of a rebuild over the inputs with these ids, all with spending row id 0. */
  function BulkMarks(vins: seq<Vin>, ids: seq<nat>): seq<Op>
    requires IdsWithin(ids, |vins|)
  {
    if ids == [] then []
    else
      var id := ids[|ids| - 1];
      BulkMarks(vins, ids[..|ids| - 1]) + if vins[id - 1].prev.hash == ZERO_HASH then [] else [Mark(vins[id - 1], 0, id)]
  }

  lemma {:induction false} BulkMarksAre(vins: seq<Vin>, ids: seq<nat>, a: Op)
    requires IdsWithin(ids, |vins|)
    ensures a in BulkMarks(vins, ids) <==>
      (a.Mark? && a.txDbId == 0 && a.vinDbId in ids && a.vin == vins[a.vinDbId - 1] && a.vin.prev.hash != ZERO_HASH)
  {
    if ids != [] {
      BulkMarksAre(vins, ids[..|ids| - 1], a);
      assert ids == ids[..|ids| - 1] + [ids[|ids| - 1]];
    }
  }

  lemma BulkMarkOfOne(vins: seq<Vin>, id: nat)
    requires 1 <= id <= |vins|
    ensures BulkMarks(vins, [id]) == if vins[id - 1].prev.hash == ZERO_HASH then [] else [Mark(vins[id - 1], 0, id)]
  {
    assert [id][..0] == [];
    assert BulkMarks(vins, [id][..0]) == [];
  }

  lemma {:induction false} MarkIdsRight(vins: seq<Vin>, marks: seq<Op>)
    requires forall a <- marks :: a.Mark? && 1 <= a.vinDbId <= |vins| && vins[a.vinDbId - 1] == a.vin
    ensures IdsRight(vins, marks)
    decreases |marks|
  {
    if marks != [] {
      assert marks[0] in marks && forall a <- marks[1..] :: a in marks;
      MarkIdsRight(vins, marks[1..]);
    }
  }

  /** No row names a wrong input. Rows may lack theirs. */
  ghost predicate NoneWrong(t: Tables) {
    forall r <- t.rows :: r.spending.Some? ==> PointsTo(r.spending.value, t.vins, r.op)
  }

  lemma BulkMarksPending(t: Tables, ids: seq<nat>, r: Row)
    requires NoneWrong(t) && IdsWithin(ids, |t.vins|) && r in t.rows
    requires forall id: nat :: 1 <= id <= |t.vins| ==> id in ids
    ensures RowPending(r, t.vins, BulkMarks(t.vins, ids))
  {
    hide BulkMarks;
    forall v <- t.vins | Spends(v, r.op) ensures MarkComes(v, BulkMarks(t.vins, ids)) {
      var i :| 0 <= i < |t.vins| && t.vins[i] == v;
      BulkMarksAre(t.vins, ids, Mark(v, 0, i + 1));
    }
  }

  /** A rebuild over all ids, in whatever order they are read, marks every row rightly. */
  lemma BulkMarksAll(t: Tables, ids: seq<nat>)
    requires NoneWrong(t) && IdsWithin(ids, |t.vins|)
    requires forall id: nat :: 1 <= id <= |t.vins| ==> id in ids
    ensures Marked(ExecAll(t, BulkMarks(t.vins, ids)))
  {
    hide BulkMarks, RowPending, MarkComes, Disciplined, RowsInTime, IdsRight;
    var marks := BulkMarks(t.vins, ids);
    forall a <- marks
      ensures a.Mark? && 1 <= a.vinDbId <= |t.vins| && t.vins[a.vinDbId - 1] == a.vin && a.vin.prev.hash != ZERO_HASH
    {
      BulkMarksAre(t.vins, ids, a);
    }
    MarksInOrder(t.vins, marks);
    MarkIdsRight(t.vins, marks);
    forall r <- t.rows ensures RowPending(r, t.vins, marks) {
      BulkMarksPending(t, ids, r);
    }
    InTimeMarks(t, marks);
  }

  /** The same statements without the marks, as when blocks are stored without spending info. */
  function NoMarks(ops: seq<Op>): seq<Op>
    decreases |ops|
  {
    if ops == [] then [] else (if ops[0].Mark? then [] else [ops[0]]) + NoMarks(ops[1..])
  }

  lemma {:induction false} NoMarksJoined(a: seq<Op>, b: seq<Op>)
    ensures NoMarks(a + b) == NoMarks(a) + NoMarks(b)
    decreases |a|
  {
    if a == [] {
      assert a + b == b;
    } else {
      assert (a + b)[0] == a[0] && (a + b)[1..] == a[1..] + b;
      NoMarksJoined(a[1..], b);
    }
  }

  lemma {:induction false} NoMarksOfMarks(a: seq<Op>)
    requires forall x <- a :: x.Mark?
    ensures NoMarks(a) == []
    decreases |a|
  {
    if a != [] {
      assert a[0] in a && forall x <- a[1..] :: x in a;
      NoMarksOfMarks(a[1..]);
    }
  }

  lemma {:induction false} NoMarksOfOthers(a: seq<Op>)
    requires forall x <- a :: !x.Mark?
    ensures NoMarks(a) == a
    decreases |a|
  {
    if a != [] {
      assert a[0] in a && forall x <- a[1..] :: x in a;
      NoMarksOfOthers(a[1..]);
      assert a == [a[0]] + a[1..];
    }
  }

  lemma {:induction false} InsertsMarkNothing(txs: seq<Tx>)
    ensures forall x <- Inserts(txs) :: x.AddVins?
  {
    if txs != [] {
      InsertsMarkNothing(txs[..|txs| - 1]);
    }
  }

  /** Storing a tree without spending info is storing it with, less the marks. */
  lemma StoreOpsAreNoMarks(tree: Tree)
    requires tree.Valid()
    ensures NoMarks(tree.Ops()) == tree.StoreOps()
  {
    var n := |tree.txs|;
    InsertsMarkNothing(tree.txs);
    TreeMarksExactly(tree, n);
    NoMarksOfOthers(tree.StoreOps());
    NoMarksOfMarks(tree.Marks(n));
    NoMarksJoined(tree.StoreOps(), tree.Marks(n));
  }

  lemma {:induction false} NoMarksSame(t: Tables, t': Tables, ops: seq<Op>)
    requires t.vins == t'.vins && SameBase(t.rows, t'.rows)
    ensures var e, e' := ExecAll(t, ops), ExecAll(t', NoMarks(ops)); e.vins == e'.vins && SameBase(e.rows, e'.rows)
    decreases |ops|
  {
    if ops != [] {
      var x, rest := ops[0], NoMarks(ops[1..]);
      if x.Mark? {
        assert [] + rest == rest;
        NoMarksSame(Exec(t, x), t', ops[1..]);
      } else {
        assert ([x] + rest)[0] == x && ([x] + rest)[1..] == rest;
        NoMarksSame(Exec(t, x), Exec(t', x), ops[1..]);
      }
    }
  }

  lemma {:induction false} NoMarksNoneWrong(t: Tables, ops: seq<Op>, vins: seq<Vin>)
    requires NoneWrong(t) && Disciplined(vins, ops)
    ensures NoneWrong(ExecAll(t, NoMarks(ops)))
    decreases |ops|
  {
    if ops != [] {
      var x, rest := ops[0], NoMarks(ops[1..]);
      var vins' := if x.AddVins? then vins + x.vins else vins;
      if x.Mark? {
        assert [] + rest == rest;
        NoMarksNoneWrong(t, ops[1..], vins');
      } else {
        assert ([x] + rest)[0] == x && ([x] + rest)[1..] == rest;
        NoMarksNoneWrong(Exec(t, x), ops[1..], vins');
      }
    }
  }

  lemma {:induction false} MarksKeepBase(t: Tables, marks: seq<Op>)
    requires forall a <- marks :: a.Mark?
    ensures var e := ExecAll(t, marks); e.vins == t.vins && SameBase(t.rows, e.rows)
    decreases |marks|
  {
    if marks != [] {
      assert marks[0] in marks && forall a <- marks[1..] :: a in marks;
      MarksKeepBase(Exec(t, marks[0]), marks[1..]);
    }
  }

  lemma SameMarksMarked(t: Tables, t': Tables)
    requires t.vins == t'.vins && SameMarks(t.rows, t'.rows) && Marked(t')
    ensures Marked(t)
  {
    forall r <- t.rows ensures RowMarked(r, t.vins) {
      var i :| 0 <= i < |t.rows| && t.rows[i] == r;
      assert t'.rows[i] in t'.rows && RowMarked(t'.rows[i], t'.vins) && Plain(r) == Plain(t'.rows[i]);
    }
  }

  /** Storing any blocks without spending info and rebuilding over all inputs, in whatever order they are
      read, gives the same address rows as marking as the blocks are stored, in everything but the spending
      row id, if and only if every row is inserted before the mark of the input that spends it. */
  lemma BulkEqualsIncremental(t: Tables, ops: seq<Op>, ids: seq<nat>)
    requires Marked(t) && Disciplined(t.vins, ops) && IdsRight(t.vins, ops) && NoDoubleSpend(ExecAll(t, ops).vins)
    requires IdsWithin(ids, |ExecAll(t, NoMarks(ops)).vins|)
    requires forall id: nat :: 1 <= id <= |ExecAll(t, NoMarks(ops)).vins| ==> id in ids
    ensures var stored := ExecAll(t, NoMarks(ops));
      var rebuilt := ExecAll(stored, BulkMarks(stored.vins, ids));
      && rebuilt.vins == ExecAll(t, ops).vins && Marked(rebuilt)
      && (SameMarks(ExecAll(t, ops).rows, rebuilt.rows) <==> RowsInTime(t.vins, ops))
  {
    assert NoneWrong(t) by {
      forall r <- t.rows ensures r.spending.Some? ==> PointsTo(r.spending.value, t.vins, r.op) {
        assert RowMarked(r, t.vins);
      }
    }
    NoMarksNoneWrong(t, ops, t.vins);
    NoMarksSame(t, t, ops);
    var stored := ExecAll(t, NoMarks(ops));
    BulkMarksAll(stored, ids);
    forall a <- BulkMarks(stored.vins, ids) ensures a.Mark? {
      BulkMarksAre(stored.vins, ids, a);
    }
    MarksKeepBase(stored, BulkMarks(stored.vins, ids));
    var rebuilt := ExecAll(stored, BulkMarks(stored.vins, ids));
    hide Marked, NoneWrong, Disciplined, RowsInTime, IdsRight, NoDoubleSpend;
    MarkedIffInTime(t, ops);
    if RowsInTime(t.vins, ops) {
      MarksAreUnique(ExecAll(t, ops), rebuilt);
    } else if SameMarks(ExecAll(t, ops).rows, rebuilt.rows) {
      SameMarksMarked(ExecAll(t, ops), rebuilt);
    }
  }

  /** Two lists in order, the second on what the first leaves, are in order one after the other. */
  lemma InOrderTwice(t: Tables, a: seq<Op>, b: seq<Op>)
    requires InOrder(t.vins, a) && InOrder(ExecAll(t, a).vins, b)
    ensures InOrder(t.vins, a + b)
    decreases |a|
  {
    hide SetSpending;
    if a == [] {
      assert a + b == b;
    } else {
      assert (a + b)[0] == a[0] && (a + b)[1..] == a[1..] + b;
      forall v | MarkComes(v, a[1..]) ensures MarkComes(v, a[1..] + b) {
        assert forall x <- a[1..] :: x in a[1..] + b;
      }
      InOrderTwice(Exec(t, a[0]), a[1..], b);
    }
  }
}
