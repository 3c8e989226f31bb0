// What a node keeps on disk: the log file and the checkpoint file, and recovery from their bytes.
module Disk {
  import opened Tablets
  import opened Decimals
  import opened Format
  import opened LogDamage

  function ToEntry(op: Op): Entry {
    match op
    case Put(row, col, data) => Entry("PUT", [row, col, data])
    case Delete(row, col) => Entry("DELETE", [row, col])
  }

  function FromEntry(e: Entry): (op: Op)
    requires Known(LogReader(false), e)
  {
    if e.name == "DELETE" then Delete(e.fields[0], e.fields[1])
    else Put(e.fields[0], e.fields[1], e.fields[2])
  }

  function ToEntries(ops: seq<Op>): (es: seq<Entry>)
    ensures |es| == |ops|
    ensures AllKnown(LogReader(false), es) && AllKnown(LogReader(true), es)
  {
    if ops == [] then [] else [ToEntry(ops[0])] + ToEntries(ops[1..])
  }

  function FromEntries(rd: Reader, es: seq<Entry>): (ops: seq<Op>)
    requires rd.LogReader? && AllKnown(rd, es)
  {
    if es == [] then [] else [FromEntry(es[0])] + FromEntries(rd, es[1..])
  }

  function PrintLog(ops: seq<Op>): string {
    PrintAll(ToEntries(ops))
  }

  /** The operations a replay of the log file applies, in order; None when the process dies. */
  function ReadLog(extraSkip: bool, bytes: string): Option<seq<Op>> {
    var rd := LogReader(extraSkip);
    var p := ReadAll(rd, bytes);
    if p.Crash? then None else Some(FromEntries(rd, p.es))
  }

  predicate OpFits(op: Op) {
    |op.row| < INT_LIMIT && |op.col| < INT_LIMIT && (op.Put? ==> |op.data| < INT_LIMIT)
  }

  predicate AllOpsFit(ops: seq<Op>) {
    forall i :: 0 <= i < |ops| ==> OpFits(ops[i])
  }

  /** No DELETE is followed by another record. */
  predicate DeletesOnlyLast(ops: seq<Op>) {
    forall i :: 0 <= i < |ops| - 1 ==> ops[i].Put?
  }

  lemma {:induction false} FromToEntries(rd: Reader, ops: seq<Op>)
    requires rd.LogReader?
    ensures AllKnown(rd, ToEntries(ops)) && FromEntries(rd, ToEntries(ops)) == ops
  {
    if ops == [] {
    } else {
      FromToEntries(rd, ops[1..]);
      assert ToEntries(ops)[1..] == ToEntries(ops[1..]);
      assert FromEntry(ToEntry(ops[0])) == ops[0];
      assert [ops[0]] + ops[1..] == ops;
    }
  }

  lemma {:induction false} ToFromEntries(rd: Reader, es: seq<Entry>)
    requires rd.LogReader? && AllKnown(rd, es)
    ensures ToEntries(FromEntries(rd, es)) == es
  {
    if es == [] {
    } else {
      ToFromEntries(rd, es[1..]);
      assert FromEntries(rd, es)[1..] == FromEntries(rd, es[1..]);
      assert ToEntry(FromEntry(es[0])) == es[0];
      assert [es[0]] + es[1..] == es;
    }
  }

  lemma EntryFits(op: Op)
    ensures Fits(ToEntry(op)) <==> OpFits(op)
    ensures op.Put? ==> (Fits(DataEntry(op)) <==> OpFits(op))
  {
    var fields := ToEntry(op).fields;
    assert FieldsFit(fields[1..][1..]) <==> (op.Put? ==> |op.data| < INT_LIMIT) by {
      if op.Put? {
        assert fields[1..][1..] == [op.data];
      }
    }
    assert FieldsFit(fields[1..]) <==> |op.col| < INT_LIMIT && FieldsFit(fields[1..][1..]);
  }

  lemma {:induction false} CleanOps(extraSkip: bool, ops: seq<Op>)
    ensures Clean(LogReader(extraSkip), ToEntries(ops)) <==> AllOpsFit(ops) && (extraSkip ==> DeletesOnlyLast(ops))
  {
    if ops == [] {
    } else {
      var rest := ops[1..];
      CleanOps(extraSkip, rest);
      EntryFits(ops[0]);
      assert ToEntries(ops)[1..] == ToEntries(rest);
      assert ToEntries(rest) == [] <==> rest == [];
      assert AllOpsFit(ops) <==> OpFits(ops[0]) && AllOpsFit(rest) by {
        assert forall i :: 0 <= i < |rest| ==> rest[i] == ops[i + 1];
        if OpFits(ops[0]) && AllOpsFit(rest) {
          forall i | 0 <= i < |ops| ensures OpFits(ops[i]) {
            if i > 0 { assert OpFits(rest[i - 1]); }
          }
        }
      }
      assert DeletesOnlyLast(ops) <==> (rest == [] || ops[0].Put?) && DeletesOnlyLast(rest) by {
        assert forall i :: 0 <= i < |rest| ==> rest[i] == ops[i + 1];
        if (rest == [] || ops[0].Put?) && DeletesOnlyLast(rest) {
          forall i | 0 <= i < |ops| - 1 ensures ops[i].Put? {
            if i > 0 { assert rest[i - 1].Put?; }
          }
        }
      }
    }
  }

  /** The log reader recovers a log exactly when every size is an int and, as written
      (extraSkip), no DELETE precedes another record. */
  lemma LogReadsBackIff(extraSkip: bool, ops: seq<Op>)
    ensures ReadLog(extraSkip, PrintLog(ops)) == Some(ops) <==>
            AllOpsFit(ops) && (extraSkip ==> DeletesOnlyLast(ops))
  {
    hide ReadAll, PrintAll, Clean;
    var rd := LogReader(extraSkip);
    var es := ToEntries(ops);
    CleanOps(extraSkip, ops);
    FromToEntries(rd, ops);
    ReadsBackIffClean(rd, es);
    var p := ReadAll(rd, PrintAll(es));
    if p.Entries? {
      ToFromEntries(rd, p.es);
    }
  }

  lemma {:induction false} ToEntriesSnoc(ops: seq<Op>, op: Op)
    ensures ToEntries(ops + [op]) == ToEntries(ops) + [ToEntry(op)]
  {
    hide ToEntry;
    if ops != [] {
      var first, rest := ops[0], ops[1..];
      ToEntriesSnoc(rest, op);
      assert ops + [op] == [first] + (rest + [op]);
      assert ops == [first] + rest;
    } else {
      assert ops + [op] == [op] + [];
    }
  }

  /** Appending a record to the file appends an operation to the log. */
  lemma PrintLogSnoc(ops: seq<Op>, op: Op)
    ensures PrintLog(ops + [op]) == PrintLog(ops) + PrintEntry(ToEntry(op))
  {
    hide PrintEntry, ToEntry;
    ToEntriesSnoc(ops, op);
    PrintAllConcat(ToEntries(ops), [ToEntry(op)]);
    PrintAllFirst([ToEntry(op)]);
    assert PrintAll([ToEntry(op)]) == PrintEntry(ToEntry(op)) + "";
  }

  // ---- the checkpoint file ----

  /** An enumeration of the cells of a tablet, each cell once and as a put, in any order. */
  ghost predicate Enumerates(puts: seq<Op>, t: Tablet) {
    && (forall i :: 0 <= i < |puts| ==> puts[i].Put? && Cell(t, puts[i].row, puts[i].col) == Some(puts[i].data))
    && (forall i, j :: 0 <= i < j < |puts| ==> !(puts[i].row == puts[j].row && puts[i].col == puts[j].col))
    && (forall r, c :: Cell(t, r, c).Some? ==> Lists(puts, r, c))
  }

  ghost predicate Lists(puts: seq<Op>, row: string, col: string) {
    exists i :: 0 <= i < |puts| && Touches(puts[i], row, col)
  }

  function DataEntry(op: Op): Entry
    requires op.Put?
  {
    Entry("DATA", [op.row, op.col, op.data])
  }

  function DataEntries(puts: seq<Op>): (es: seq<Entry>)
    requires forall i :: 0 <= i < |puts| ==> puts[i].Put?
    ensures |es| == |puts| && AllKnown(TabletReader, es)
  {
    if puts == [] then [] else [DataEntry(puts[0])] + DataEntries(puts[1..])
  }

  function FromData(es: seq<Entry>): (puts: seq<Op>)
    requires AllKnown(TabletReader, es)
  {
    if es == [] then []
    else [Put(es[0].fields[0], es[0].fields[1], es[0].fields[2])] + FromData(es[1..])
  }

  function PrintTablet(puts: seq<Op>): string
    requires forall i :: 0 <= i < |puts| ==> puts[i].Put?
  {
    PrintAll(DataEntries(puts))
  }

  /** The tablet a fresh node builds from a checkpoint file; None when the process dies. */
  function LoadTablet(bytes: string): Option<Tablet> {
    var p := ReadAll(TabletReader, bytes);
    if p.Crash? then None else Some(Replay(map[], FromData(p.es)))
  }

  lemma {:induction false} FromDataEntries(puts: seq<Op>)
    requires forall i :: 0 <= i < |puts| ==> puts[i].Put?
    ensures FromData(DataEntries(puts)) == puts
  {
    if puts == [] {
    } else {
      FromDataEntries(puts[1..]);
      assert DataEntries(puts)[1..] == DataEntries(puts[1..]);
      assert [puts[0]] + puts[1..] == puts;
    }
  }

  lemma {:induction false} CleanData(puts: seq<Op>)
    requires forall i :: 0 <= i < |puts| ==> puts[i].Put?
    requires AllOpsFit(puts)
    ensures Clean(TabletReader, DataEntries(puts))
  {
    if puts == [] {
    } else {
      CleanData(puts[1..]);
      assert DataEntries(puts)[1..] == DataEntries(puts[1..]);
      assert OpFits(puts[0]);
      EntryFits(puts[0]);
    }
  }

  // Replaying an enumeration on an empty tablet rebuilds the cells and only the rows that have some.
  lemma ReplayEnumeration(puts: seq<Op>, t: Tablet)
    requires Enumerates(puts, t)
    ensures Replay(map[], puts) == DropEmptyRows(t)
  {
    var built := Replay(map[], puts);
    DropEmptyRowsKeepsCells(t);
    forall r, c ensures Cell(built, r, c) == Cell(DropEmptyRows(t), r, c) {
      assert Cell(DropEmptyRows(t), r, c) == Cell(t, r, c);
      ReplayCell(map[], puts, r, c);
      var i := LastTouch(puts, r, c);
      if i < 0 {
        assert !Lists(puts, r, c);
      }
    }
    forall r ensures r in built <==> r in DropEmptyRows(t) {
      ReplayRows(map[], puts, r);
      if r in DropEmptyRows(t) {
        var c :| c in t[r];
        assert Cell(t, r, c).Some?;
        assert Lists(puts, r, c);
      }
    }
    CellsAndRowsDetermine(built, DropEmptyRows(t));
  }

  /** Loading a saved tablet gives it back without its empty rows, whatever the order of the cells. */
  lemma TabletRoundTrip(puts: seq<Op>, t: Tablet)
    requires Enumerates(puts, t) && AllOpsFit(puts)
    ensures LoadTablet(PrintTablet(puts)) == Some(DropEmptyRows(t))
  {
    hide ReadAll, PrintAll, Clean, Replay, DropEmptyRows;
    CleanData(puts);
    ReadsBackIffClean(TabletReader, DataEntries(puts));
    FromDataEntries(puts);
    ReplayEnumeration(puts, t);
  }

  /** So a get after a save and a load answers with the cell that was saved, or not found where there was none. */
  lemma TabletRoundTripReplies(puts: seq<Op>, t: Tablet, row: string, col: string)
    requires Enumerates(puts, t) && AllOpsFit(puts)
    ensures LoadTablet(PrintTablet(puts)).Some?
    ensures Get(LoadTablet(PrintTablet(puts)).value, row, col) ==
            match Cell(t, row, col) case Some(v) => GetReply(OK, v) case None => GetReply(NOT_FOUND, "")
  {
    TabletRoundTrip(puts, t);
    DropEmptyRowsKeepsCells(t);
    assert Cell(DropEmptyRows(t), row, col) == Cell(t, row, col);
    GetIsCell(DropEmptyRows(t), row, col);
  }

  // ---- a DELETE followed by a PUT, read as written ----

  predicate PlainLine(s: string) {
    '\n' !in s && Arity(LogReader(true), GetToken(s, 0).0) == None
  }

  lemma PlainLineIsJunk(line: string, rest: string)
    requires PlainLine(line)
    ensures ReadAll(LogReader(true), line + "\n" + rest) == ReadAll(LogReader(true), rest)
  {
    LineBefore(line, rest);
    hide GetToken, GetLine;
    assert ReadOne(LogReader(true), line + "\n" + rest) == Junk(rest);
  }

  /** The PUT is lost: its damaged header and its three fields are all unknown lines. */
  lemma DeleteThenPutLosesThePut(del: Op, put: Op)
    requires del.Delete? && put.Put? && OpFits(del)
    requires PlainLine(put.row) && PlainLine(put.col) && PlainLine(put.data)
    ensures ReadLog(true, PrintLog([del, put])) == Some([del])
  {
    hide ReadAll, PrintEntry, GetToken;
    var rd := LogReader(true);
    var d, p := ToEntry(del), ToEntry(put);
    EntryFits(del);
    assert ToEntries([del, put]) == [d, p] by {
      assert [del, put][1..] == [put];
      assert ToEntries([put]) == [p];
    }
    var tail := PrintAll([p]);
    PrintAllFirst([d, p]);
    assert [d, p][1..] == [p];
    PrintAllFirst([p]);
    assert tail == PrintEntry(p) + "";
    ReadAllFirst(rd, d, tail);
    PrintAllNonempty([p]);
    DamagedHeader(p, "");
    assert FieldsText(p.fields) == put.row + "\n" + (put.col + "\n" + (put.data + "\n" + "")) by {
      assert p.fields[1..] == [put.col, put.data];
      assert [put.col, put.data][1..] == [put.data];
      assert FieldsText([put.data]) == put.data + "\n" + "";
    }
    assert FieldsText(p.fields) + "" == FieldsText(p.fields);
    PlainLineIsJunk(put.row, put.col + "\n" + (put.data + "\n" + ""));
    PlainLineIsJunk(put.col, put.data + "\n" + "");
    PlainLineIsJunk(put.data, "");
    ReadAllEmpty(rd);
    assert [d] + [] == [d];
    assert FromEntries(rd, [d]) == [del];
  }

  lemma ReadAllEmpty(rd: Reader)
    ensures ReadAll(rd, "") == Entries([])
  {
  }
}
