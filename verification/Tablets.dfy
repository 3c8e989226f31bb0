// The in-memory tablet of a node and the two operations that change it.
// A `char` stands for one byte throughout: keys and values are byte strings.
module Tablets {
  datatype Option<+T> = None | Some(value: T)

  type Row = map<string, string>
  type Tablet = map<string, Row>

  /** One record of the write-ahead log. */
  datatype Op = Put(row: string, col: string, data: string) | Delete(row: string, col: string)

  datatype Code = OK | NOT_FOUND | INVALID_ARGUMENT | FAILED_PRECONDITION | UNAVAILABLE

  datatype GetReply = GetReply(code: Code, value: string)

  function DoPut(t: Tablet, row: string, col: string, data: string): Tablet {
    var cells: Row := if row in t then t[row] else map[];
    t[row := cells[col := data]]
  }

  // The row stays behind, possibly empty.
  function DoDelete(t: Tablet, row: string, col: string): Tablet {
    if row !in t then t
    else if col !in t[row] then t
    else t[row := t[row] - {col}]
  }

  function Apply(t: Tablet, op: Op): Tablet {
    match op
    case Put(row, col, data) => DoPut(t, row, col, data)
    case Delete(row, col) => DoDelete(t, row, col)
  }

  function Replay(t: Tablet, ops: seq<Op>): Tablet {
    if ops == [] then t else Apply(Replay(t, ops[..|ops| - 1]), ops[|ops| - 1])
  }

  function Get(t: Tablet, row: string, col: string): GetReply {
    if row !in t then GetReply(NOT_FOUND, "")
    else if col !in t[row] then GetReply(NOT_FOUND, "")
    else GetReply(OK, t[row][col])
  }

  // The checks a conditional put makes under the row lock, in order.
  function CPutCheck(t: Tablet, row: string, col: string, v1: string): Code {
    if row !in t && v1 != "" then NOT_FOUND
    else if (row !in t || col !in t[row]) && v1 != "" then NOT_FOUND
    else if row in t && col in t[row] && t[row][col] != v1 then FAILED_PRECONDITION
    else OK
  }

  // A conditional put that passes the row check leaves at least an empty row.
  function TouchRow(t: Tablet, row: string): Tablet {
    if row in t then t else t[row := map[]]
  }

  function DropEmptyRows(t: Tablet): Tablet {
    map r | r in t && t[r] != map[] :: t[r]
  }

  // ---- the cells of a tablet: what a reader can tell apart ----

  function Cell(t: Tablet, row: string, col: string): Option<string> {
    if row in t && col in t[row] then Some(t[row][col]) else None
  }

  function Effect(op: Op): Option<string> {
    match op
    case Put(_, _, data) => Some(data)
    case Delete(_, _) => None
  }

  predicate Touches(op: Op, row: string, col: string) {
    op.row == row && op.col == col
  }

  ghost predicate SameCells(t1: Tablet, t2: Tablet) {
    forall r, c :: Cell(t1, r, c) == Cell(t2, r, c)
  }

  // A get answers the value of the cell that is there, and that there is none where there is none.
  lemma GetIsCell(t: Tablet, row: string, col: string)
    ensures Cell(t, row, col).Some? ==> Get(t, row, col) == GetReply(OK, Cell(t, row, col).value)
    ensures Cell(t, row, col) == None ==> Get(t, row, col) == GetReply(NOT_FOUND, "")
  {
  }

  lemma SameCellsSameReplies(t1: Tablet, t2: Tablet, row: string, col: string)
    requires SameCells(t1, t2)
    ensures Get(t1, row, col) == Get(t2, row, col)
  {
    assert Cell(t1, row, col) == Cell(t2, row, col);
  }

  // A conditional put cannot tell an empty row from a missing one either.
  lemma SameCellsSameChecks(t1: Tablet, t2: Tablet, row: string, col: string, v1: string)
    requires SameCells(t1, t2)
    ensures CPutCheck(t1, row, col, v1) == CPutCheck(t2, row, col, v1)
  {
    assert Cell(t1, row, col) == Cell(t2, row, col);
  }

  lemma ApplyCell(t: Tablet, op: Op, row: string, col: string)
    ensures Cell(Apply(t, op), row, col) == if Touches(op, row, col) then Effect(op) else Cell(t, row, col)
  {
  }

  lemma DropEmptyRowsKeepsCells(t: Tablet)
    ensures SameCells(DropEmptyRows(t), t)
    ensures forall r :: r in DropEmptyRows(t) ==> DropEmptyRows(t)[r] != map[]
  {
  }

  lemma TouchRowKeepsCells(t: Tablet, row: string)
    ensures SameCells(TouchRow(t, row), t)
  {
  }

  // ---- replay: each cell is fixed by the last operation that touches it ----

  /** Index of the last operation on the cell, or -1. */
  function LastTouch(ops: seq<Op>, row: string, col: string): (i: int)
    ensures -1 <= i < |ops|
    ensures i >= 0 ==> Touches(ops[i], row, col)
    ensures forall j :: i < j < |ops| ==> !Touches(ops[j], row, col)
  {
    if ops == [] then -1
    else if Touches(ops[|ops| - 1], row, col) then |ops| - 1
    else LastTouch(ops[..|ops| - 1], row, col)
  }

  lemma {:induction false} ReplayCell(t: Tablet, ops: seq<Op>, row: string, col: string)
    ensures Cell(Replay(t, ops), row, col) ==
            var i := LastTouch(ops, row, col); if i < 0 then Cell(t, row, col) else Effect(ops[i])
  {
    if ops == [] {
    } else {
      ReplayCell(t, ops[..|ops| - 1], row, col);
      ApplyCell(Replay(t, ops[..|ops| - 1]), ops[|ops| - 1], row, col);
    }
  }

  /** A get after a replay answers what the last operation on the cell put there; not found if that was a delete. */
  lemma ReplayedGet(t: Tablet, ops: seq<Op>, row: string, col: string, i: nat)
    requires i < |ops| && Touches(ops[i], row, col) && forall j :: i < j < |ops| ==> !Touches(ops[j], row, col)
    ensures Get(Replay(t, ops), row, col) == if ops[i].Put? then GetReply(OK, ops[i].data) else GetReply(NOT_FOUND, "")
  {
    ReplayCell(t, ops, row, col);
    assert LastTouch(ops, row, col) == i;
    GetIsCell(Replay(t, ops), row, col);
  }

  lemma {:induction false} ReplayConcat(t: Tablet, a: seq<Op>, b: seq<Op>)
    ensures Replay(t, a + b) == Replay(Replay(t, a), b)
  {
    if b == [] {
      assert a + b == a;
    } else {
      ReplayConcat(t, a, b[..|b| - 1]);
      assert a + b == (a + b[..|b| - 1]) + [b[|b| - 1]];
    }
  }

  // Replay never removes a row and adds exactly the rows that are put.
  lemma {:induction false} ReplayRows(t: Tablet, ops: seq<Op>, row: string)
    ensures row in Replay(t, ops) <==> row in t || exists i :: 0 <= i < |ops| && ops[i].Put? && ops[i].row == row
  {
    if ops == [] {
    } else {
      var init, last := ops[..|ops| - 1], ops[|ops| - 1];
      ReplayRows(t, init, row);
      assert row in Apply(Replay(t, init), last) <==> row in Replay(t, init) || (last.Put? && last.row == row);
      if i :| 0 <= i < |init| && init[i].Put? && init[i].row == row {
        assert ops[i] == init[i];
      }
      if i :| 0 <= i < |ops| && ops[i].Put? && ops[i].row == row {
        assert i < |init| ==> init[i] == ops[i];
      }
    }
  }

  lemma CellsAndRowsDetermine(t1: Tablet, t2: Tablet)
    requires SameCells(t1, t2) && t1.Keys == t2.Keys
    ensures t1 == t2
  {
    forall r | r in t1 ensures t1[r] == t2[r] {
      forall c ensures c in t1[r] <==> c in t2[r] {
        assert Cell(t1, r, c) == Cell(t2, r, c);
      }
      forall c | c in t1[r] ensures t1[r][c] == t2[r][c] {
        assert Cell(t1, r, c) == Cell(t2, r, c);
      }
    }
  }

  /** Replaying a log a second time changes nothing, not even the set of rows. */
  lemma ReplayIdempotent(t: Tablet, ops: seq<Op>)
    ensures Replay(Replay(t, ops), ops) == Replay(t, ops)
  {
    var once := Replay(t, ops);
    var twice := Replay(once, ops);
    forall r, c ensures Cell(twice, r, c) == Cell(once, r, c) {
      ReplayCell(t, ops, r, c);
      ReplayCell(once, ops, r, c);
    }
    forall r ensures r in twice <==> r in once {
      ReplayRows(t, ops, r);
      ReplayRows(once, ops, r);
    }
    CellsAndRowsDetermine(twice, once);
  }

  // ---- logs that agree row by row ----

  function RowOps(ops: seq<Op>, row: string): (r: seq<Op>)
    ensures forall o :: o in r ==> o.row == row && o in ops
  {
    if ops == [] then []
    else RowOps(ops[..|ops| - 1], row) + (if ops[|ops| - 1].row == row then [ops[|ops| - 1]] else [])
  }

  lemma RowOpsSnoc(ops: seq<Op>, op: Op, row: string)
    ensures RowOps(ops + [op], row) == if op.row == row then RowOps(ops, row) + [op] else RowOps(ops, row)
  {
    assert (ops + [op])[..|ops|] == ops;
  }

  function RowOf(t: Tablet, row: string): Option<Row> {
    if row in t then Some(t[row]) else None
  }

  lemma {:induction false} ReplayRowOf(t: Tablet, ops: seq<Op>, row: string)
    ensures RowOf(Replay(t, ops), row) == RowOf(Replay(t, RowOps(ops, row)), row)
  {
    if ops == [] {
    } else {
      var init, last := ops[..|ops| - 1], ops[|ops| - 1];
      ReplayRowOf(t, init, row);
      var full, only := Replay(t, init), Replay(t, RowOps(init, row));
      assert Replay(t, ops) == Apply(full, last);
      if last.row == row {
        assert RowOps(ops, row) == RowOps(init, row) + [last];
      } else {
        assert RowOps(ops, row) == RowOps(init, row);
      }
    }
  }

  /** Two logs with equal restrictions to every row rebuild the same tablet. */
  lemma ReplayByRows(t: Tablet, a: seq<Op>, b: seq<Op>)
    requires forall r :: RowOps(a, r) == RowOps(b, r)
    ensures Replay(t, a) == Replay(t, b)
  {
    var ta, tb := Replay(t, a), Replay(t, b);
    forall r ensures RowOf(ta, r) == RowOf(tb, r) {
      assert RowOps(a, r) == RowOps(b, r);
      ReplayRowOf(t, a, r);
      ReplayRowOf(t, b, r);
    }
    assert forall r :: r in ta <==> RowOf(ta, r).Some?;
    assert forall r :: r in tb <==> RowOf(tb, r).Some?;
    assert forall r | r in ta :: RowOf(ta, r) == RowOf(tb, r);
  }
}
