/** The vins and addresses tables of db/hcpg, as sequences of rows, and the statements that change them. */
module AddressTable {
  import opened Options

  newtype TxId = x: int | 0 <= x

  /** The hash that a coinbase input refers to. */
  const ZERO_HASH: TxId := 0

  datatype Outpoint = Outpoint(hash: TxId, index: nat)

  /** A row of vins. Its id is its place in the table, counted from 1. */
  datatype Vin = Vin(txHash: TxId, txIndex: nat, prev: Outpoint)

  /** The four spending columns of an addresses row, which are set by one statement. */
  datatype Spending = Spending(txDbId: nat, txHash: TxId, vinIndex: nat, vinDbId: nat)

  /** A row of addresses. Without a spending the four columns are NULL. */
  datatype Row = Row(address: string, fundingTxDbId: nat, op: Outpoint, voutDbId: nat, value: nat,
                     spending: Option<Spending>)

  datatype Tables = Tables(vins: seq<Vin>, rows: seq<Row>)

  /** Coinbase inputs spend nothing. */
  predicate Spends(v: Vin, op: Outpoint) {
    v.prev.hash != ZERO_HASH && v.prev == op
  }

  // ---------------------------------------------------------------------------------------------
  // Statements

  datatype Op =
    | AddVins(vins: seq<Vin>)
    | AddRows(rows: seq<Row>)
    | Mark(vin: Vin, txDbId: nat, vinDbId: nat)

  function SpendingOf(a: Op): Spending
    requires a.Mark?
  {
    Spending(a.txDbId, a.vin.txHash, a.vin.txIndex, a.vinDbId)
  }

  /** UPDATE addresses SET ... WHERE funding outpoint */
  function SetSpending(rows: seq<Row>, op: Outpoint, sp: Spending): (r: seq<Row>)
    ensures |r| == |rows|
    ensures forall i :: 0 <= i < |rows| ==> r[i] == if rows[i].op == op then rows[i].(spending := Some(sp)) else rows[i]
  {
    if rows == [] then []
    else
      var last := rows[|rows| - 1];
      SetSpending(rows[..|rows| - 1], op, sp) + [if last.op == op then last.(spending := Some(sp)) else last]
  }

  function Exec(t: Tables, a: Op): Tables {
    match a
    case AddVins(vins) => t.(vins := t.vins + vins)
    case AddRows(rows) => t.(rows := t.rows + rows)
    case Mark(v, _, _) => t.(rows := SetSpending(t.rows, v.prev, SpendingOf(a)))
  }

  function ExecAll(t: Tables, ops: seq<Op>): Tables
    decreases |ops|
  {
    if ops == [] then t else ExecAll(Exec(t, ops[0]), ops[1..])
  }

  // ---------------------------------------------------------------------------------------------
  // What the spending columns should say

  predicate PointsTo(sp: Spending, vins: seq<Vin>, op: Outpoint) {
    1 <= sp.vinDbId <= |vins| &&
    var v := vins[sp.vinDbId - 1];
    Spends(v, op) && sp.txHash == v.txHash && sp.vinIndex == v.txIndex
  }

  ghost predicate RowMarked(r: Row, vins: seq<Vin>) {
    match r.spending
    case None => forall v <- vins :: !Spends(v, r.op)
    case Some(sp) => PointsTo(sp, vins, r.op)
  }

  /** Every row names the input that spends it, or none if there is none. */
  ghost predicate Marked(t: Tables) {
    forall r <- t.rows :: RowMarked(r, t.vins)
  }

  ghost predicate NoDoubleSpend(vins: seq<Vin>) {
    forall i, j :: 0 <= i < j < |vins| && vins[i].prev.hash != ZERO_HASH ==> vins[i].prev != vins[j].prev
  }

  /** A row without the column in which the two ways of marking differ. */
  function Plain(r: Row): Row {
    if r.spending.Some? then r.(spending := Some(r.spending.value.(txDbId := 0))) else r
  }

  /** A row without its spending columns. */
  function Unspent(r: Row): Row {
    r.(spending := None)
  }

  ghost predicate SameBase(rows: seq<Row>, rows': seq<Row>) {
    |rows| == |rows'| && forall i :: 0 <= i < |rows| ==> Unspent(rows[i]) == Unspent(rows'[i])
  }

  ghost predicate SameMarks(rows: seq<Row>, rows': seq<Row>) {
    |rows| == |rows'| && forall i :: 0 <= i < |rows| ==> Plain(rows[i]) == Plain(rows'[i])
  }

  /** Without double spends the marks are determined, but for the spending row id. */
  lemma MarksAreUnique(t: Tables, t': Tables)
    requires t.vins == t'.vins && NoDoubleSpend(t.vins) && SameBase(t.rows, t'.rows)
    requires Marked(t) && Marked(t')
    ensures SameMarks(t.rows, t'.rows)
  {
    forall i | 0 <= i < |t.rows| ensures Plain(t.rows[i]) == Plain(t'.rows[i]) {
      var r, r' := t.rows[i], t'.rows[i];
      assert r in t.rows && r' in t'.rows && Unspent(r) == Unspent(r');
      assert RowMarked(r, t.vins) && RowMarked(r', t.vins);
      if r.spending.Some? {
        assert t.vins[r.spending.value.vinDbId - 1] in t.vins;
      }
      if r'.spending.Some? {
        assert t.vins[r'.spending.value.vinDbId - 1] in t.vins;
      }
    }
  }

  // ---------------------------------------------------------------------------------------------
  // Which orders of statements mark correctly

  /** A mark for this input is still to come. */
  ghost predicate MarkComes(v: Vin, ops: seq<Op>) {
    exists a <- ops :: a.Mark? && a.vin == v
  }

  /** Each input that spends is marked after it is inserted, and nothing else is. */
  ghost predicate Disciplined(vins: seq<Vin>, ops: seq<Op>)
    decreases |ops|
  {
    ops != [] ==>
      match ops[0]
      case AddVins(vs) =>
        (forall v <- vs :: v.prev.hash != ZERO_HASH ==> MarkComes(v, ops[1..])) && Disciplined(vins + vs, ops[1..])
      case AddRows(rs) => (forall r <- rs :: r.spending.None?) && Disciplined(vins, ops[1..])
      case Mark(v, _, _) => v in vins && v.prev.hash != ZERO_HASH && Disciplined(vins, ops[1..])
  }

  /** Each row is inserted before the marks of the inputs that spend it, or at least before the last of them. */
  ghost predicate RowsInTime(vins: seq<Vin>, ops: seq<Op>)
    decreases |ops|
  {
    ops != [] ==>
      match ops[0]
      case AddVins(vs) => RowsInTime(vins + vs, ops[1..])
      case AddRows(rs) =>
        (forall r <- rs, v <- vins :: Spends(v, r.op) ==> MarkComes(v, ops[1..])) && RowsInTime(vins, ops[1..])
      case Mark(_, _, _) => RowsInTime(vins, ops[1..])
  }

  /** The ids used in marks are those that the inserts returned. */
  ghost predicate IdsRight(vins: seq<Vin>, ops: seq<Op>)
    decreases |ops|
  {
    ops != [] ==>
      match ops[0]
      case AddVins(vs) => IdsRight(vins + vs, ops[1..])
      case AddRows(_) => IdsRight(vins, ops[1..])
      case Mark(v, _, id) => 1 <= id <= |vins| && vins[id - 1] == v && IdsRight(vins, ops[1..])
  }

  /** Rows marked so far are marked rightly, and for the others every spender's mark is still to come. */
  ghost predicate RowPending(r: Row, vins: seq<Vin>, ops: seq<Op>) {
    match r.spending
    case None => forall v <- vins :: Spends(v, r.op) ==> MarkComes(v, ops)
    case Some(sp) => PointsTo(sp, vins, r.op)
  }

  ghost predicate Pending(t: Tables, ops: seq<Op>) {
    forall r <- t.rows :: RowPending(r, t.vins, ops)
  }

  lemma MarkStays(v: Vin, ops: seq<Op>)
    requires ops != [] && MarkComes(v, ops)
    ensures (ops[0].Mark? && ops[0].vin == v) || MarkComes(v, ops[1..])
  {
    var a :| a in ops && a.Mark? && a.vin == v;
    assert a == ops[0] || a in ops[1..];
  }

  lemma PendingStep(t: Tables, ops: seq<Op>)
    requires ops != [] && Pending(t, ops)
    requires Disciplined(t.vins, ops) && RowsInTime(t.vins, ops) && IdsRight(t.vins, ops)
    ensures Pending(Exec(t, ops[0]), ops[1..])
  {
    var t', rest := Exec(t, ops[0]), ops[1..];
    forall r' | r' in t'.rows ensures RowPending(r', t'.vins, rest) {
      var i :| 0 <= i < |t'.rows| && t'.rows[i] == r';
      if i < |t.rows| {
        var r := t.rows[i];
        assert r in t.rows && RowPending(r, t.vins, ops);
        if r'.spending.None? {
          forall v | v in t'.vins && Spends(v, r'.op) ensures MarkComes(v, rest) {
            if v in t.vins {
              MarkStays(v, ops);
            }
          }
        }
      }
    }
  }

  /** Such orders mark correctly. */
  lemma {:induction false} InTimeMarks(t: Tables, ops: seq<Op>)
    requires Pending(t, ops)
    requires Disciplined(t.vins, ops) && RowsInTime(t.vins, ops) && IdsRight(t.vins, ops)
    ensures Marked(ExecAll(t, ops))
    decreases |ops|
  {
    hide Pending, SetSpending;
    if ops == [] {
      PendingNothing(t);
    } else {
      PendingStep(t, ops);
      InTimeMarks(Exec(t, ops[0]), ops[1..]);
    }
  }

  lemma PendingNothing(t: Tables)
    ensures Pending(t, []) <==> Marked(t)
  {
    forall r ensures RowPending(r, t.vins, []) <==> RowMarked(r, t.vins) {
    }
  }

  lemma {:induction false} ExecTwice(t: Tables, a: seq<Op>, b: seq<Op>)
    ensures ExecAll(t, a + b) == ExecAll(ExecAll(t, a), b)
    ensures IdsRight(t.vins, a + b) <==> IdsRight(t.vins, a) && IdsRight(ExecAll(t, a).vins, b)
    decreases |a|
  {
    hide SetSpending;
    if a == [] {
      assert a + b == b;
    } else {
      assert (a + b)[1..] == a[1..] + b;
      ExecTwice(Exec(t, a[0]), a[1..], b);
    }
  }

  lemma {:induction false} VinsGrow(t: Tables, ops: seq<Op>)
    ensures t.vins <= ExecAll(t, ops).vins
    decreases |ops|
  {
    hide SetSpending;
    if ops != [] {
      VinsGrow(Exec(t, ops[0]), ops[1..]);
    }
  }

  /** A row that no later mark is for stays as it is. */
  lemma {:induction false} StaysUnmarked(t: Tables, ops: seq<Op>, i: nat)
    requires i < |t.rows| && forall a <- ops :: a.Mark? ==> a.vin.prev != t.rows[i].op
    ensures i < |ExecAll(t, ops).rows| && ExecAll(t, ops).rows[i] == t.rows[i]
    decreases |ops|
  {
    if ops != [] {
      assert ops[0] in ops && forall a <- ops[1..] :: a in ops;
      StaysUnmarked(Exec(t, ops[0]), ops[1..], i);
    }
  }

  lemma SameSpender(vins: seq<Vin>, v: Vin, w: Vin)
    requires NoDoubleSpend(vins) && v in vins && w in vins && v.prev == w.prev && v.prev.hash != ZERO_HASH
    ensures v == w
  {
    var i :| 0 <= i < |vins| && vins[i] == v;
    var j :| 0 <= j < |vins| && vins[j] == w;
  }

  lemma {:induction false} MarkedVinsAreThere(t: Tables, ops: seq<Op>, a: Op)
    requires Disciplined(t.vins, ops) && a in ops && a.Mark?
    ensures a.vin in ExecAll(t, ops).vins
    decreases |ops|
  {
    hide SetSpending;
    VinsGrow(Exec(t, ops[0]), ops[1..]);
    if a == ops[0] {
    } else {
      assert a in ops[1..];
      MarkedVinsAreThere(Exec(t, ops[0]), ops[1..], a);
    }
  }

  /** A row inserted after the only mark for it is missed for good. */
  lemma MissedRow(t: Tables, ops: seq<Op>, i: nat, v: Vin)
    requires Disciplined(t.vins, ops) && NoDoubleSpend(ExecAll(t, ops).vins)
    requires i < |t.rows| && t.rows[i].spending.None? && v in t.vins && Spends(v, t.rows[i].op) && !MarkComes(v, ops)
    ensures !Marked(ExecAll(t, ops))
  {
    var end := ExecAll(t, ops);
    VinsGrow(t, ops);
    forall a | a in ops && a.Mark? ensures a.vin.prev != t.rows[i].op {
      MarkedVinsAreThere(t, ops, a);
      assert a.vin == v ==> MarkComes(v, ops);
      if a.vin.prev == v.prev {
        SameSpender(end.vins, v, a.vin);
      }
    }
    StaysUnmarked(t, ops, i);
    assert end.rows[i] in end.rows && !RowMarked(end.rows[i], end.vins);
  }

  lemma {:induction false} LateRowsAreMissed(t: Tables, ops: seq<Op>)
    requires Disciplined(t.vins, ops) && NoDoubleSpend(ExecAll(t, ops).vins) && !RowsInTime(t.vins, ops)
    ensures !Marked(ExecAll(t, ops))
    decreases |ops|
  {
    hide SetSpending, Marked, NoDoubleSpend, MarkComes;
    var t', rest := Exec(t, ops[0]), ops[1..];
    if ops[0].AddRows? && exists r <- ops[0].rows, v <- t.vins :: Spends(v, r.op) && !MarkComes(v, rest) {
      var r, v :| r in ops[0].rows && v in t.vins && Spends(v, r.op) && !MarkComes(v, rest);
      var k :| 0 <= k < |ops[0].rows| && ops[0].rows[k] == r;
      MissedRow(t', rest, |t.rows| + k, v);
    } else {
      LateRowsAreMissed(t', rest);
    }
  }

  /** Marking as blocks are stored is right if and only if every row is inserted before the mark of the input
      that spends it. */
  lemma MarkedIffInTime(t: Tables, ops: seq<Op>)
    requires Marked(t) && Disciplined(t.vins, ops) && IdsRight(t.vins, ops) && NoDoubleSpend(ExecAll(t, ops).vins)
    ensures Marked(ExecAll(t, ops)) <==> RowsInTime(t.vins, ops)
  {
    if RowsInTime(t.vins, ops) {
      MarkedIsPending(t, ops);
      InTimeMarks(t, ops);
    } else {
      LateRowsAreMissed(t, ops);
    }
  }

  lemma MarkedIsPending(t: Tables, ops: seq<Op>)
    requires Marked(t)
    ensures Pending(t, ops)
  {
    forall r <- t.rows ensures RowPending(r, t.vins, ops) {
      assert RowMarked(r, t.vins);
    }
  }
}
