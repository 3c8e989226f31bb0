// Invariants of the loops that write and read the files of a node.
module FileLoops {
  import opened Tablets
  import opened Decimals
  import opened Format
  import opened LogDamage
  import opened Disk

  // ---- writing: cells enumerated so far ----

  ghost predicate Written(puts: seq<Op>, t: Tablet, rows: set<string>, row: string, cols: set<string>) {
    && (forall i :: 0 <= i < |puts| ==> puts[i].Put? && Cell(t, puts[i].row, puts[i].col) == Some(puts[i].data))
    && (forall i, j :: 0 <= i < j < |puts| ==> !(puts[i].row == puts[j].row && puts[i].col == puts[j].col))
    && (forall r, c :: Lists(puts, r, c) <==> (r in rows && Cell(t, r, c).Some?) || (r == row && c in cols))
  }

  lemma NothingWritten(t: Tablet)
    ensures Written([], t, {}, "", {})
  {
  }

  lemma StartRow(puts: seq<Op>, t: Tablet, rows: set<string>, last: string, row: string)
    requires Written(puts, t, rows, last, {})
    ensures Written(puts, t, rows, row, {})
  {
  }

  lemma WriteCell(puts: seq<Op>, t: Tablet, rows: set<string>, row: string, cols: set<string>, col: string)
    requires Written(puts, t, rows, row, cols)
    requires row in t && col in t[row] && row !in rows && col !in cols
    ensures Written(puts + [Put(row, col, t[row][col])], t, rows, row, cols + {col})
  {
    var puts' := puts + [Put(row, col, t[row][col])];
    assert !Lists(puts, row, col);
    forall r, c
      ensures Lists(puts', r, c) <==> (r in rows && Cell(t, r, c).Some?) || (r == row && c in cols + {col})
    {
      assert Lists(puts, r, c) <==> (r in rows && Cell(t, r, c).Some?) || (r == row && c in cols);
      if Lists(puts, r, c) {
        var i :| 0 <= i < |puts| && Touches(puts[i], r, c);
        assert Touches(puts'[i], r, c);
      }
      assert Touches(puts'[|puts|], row, col);
    }
  }

  lemma FinishRow(puts: seq<Op>, t: Tablet, rows: set<string>, row: string, cols: set<string>)
    requires Written(puts, t, rows, row, cols) && row in t && cols == t[row].Keys
    ensures Written(puts, t, rows + {row}, row, {})
  {
    forall r, c ensures Lists(puts, r, c) <==> r in rows + {row} && Cell(t, r, c).Some? {
      assert Lists(puts, r, c) <==> (r in rows && Cell(t, r, c).Some?) || (r == row && c in cols);
    }
  }

  /** All rows written: the file enumerates the tablet, and as well the tablet without its empty rows. */
  lemma AllWritten(puts: seq<Op>, t: Tablet, row: string)
    requires Written(puts, t, t.Keys, row, {})
    ensures Enumerates(puts, t) && Enumerates(puts, DropEmptyRows(t))
    ensures DropEmptyRows(DropEmptyRows(t)) == DropEmptyRows(t)
  {
    DropEmptyRowsKeepsCells(t);
    assert forall r, c :: Cell(DropEmptyRows(t), r, c) == Cell(t, r, c);
    assert Enumerates(puts, t);
  }

  lemma {:induction false} PrintTabletSnoc(puts: seq<Op>, put: Op)
    requires (forall i :: 0 <= i < |puts| ==> puts[i].Put?) && put.Put?
    ensures PrintTablet(puts + [put]) == PrintTablet(puts) + PrintEntry(DataEntry(put))
  {
    hide PrintEntry, DataEntry;
    DataEntriesSnoc(puts, put);
    PrintAllConcat(DataEntries(puts), [DataEntry(put)]);
    PrintAllFirst([DataEntry(put)]);
    assert PrintAll([DataEntry(put)]) == PrintEntry(DataEntry(put)) + "";
  }

  lemma {:induction false} DataEntriesSnoc(puts: seq<Op>, put: Op)
    requires (forall i :: 0 <= i < |puts| ==> puts[i].Put?) && put.Put?
    ensures DataEntries(puts + [put]) == DataEntries(puts) + [DataEntry(put)]
  {
    hide DataEntry;
    if puts != [] {
      DataEntriesSnoc(puts[1..], put);
      assert (puts + [put])[1..] == puts[1..] + [put];
    } else {
      assert puts + [put] == [put] && [put][1..] == [];
    }
  }

  // ---- reading: records applied so far ----

  lemma {:induction false} KnownSnoc(rd: Reader, es: seq<Entry>, e: Entry)
    requires AllKnown(rd, es) && Known(rd, e)
    ensures AllKnown(rd, es + [e])
  {
    if es == [] {
    } else {
      KnownSnoc(rd, es[1..], e);
      assert (es + [e])[1..] == es[1..] + [e];
    }
  }

  lemma {:induction false} FromEntriesSnoc(rd: Reader, es: seq<Entry>, e: Entry)
    requires rd.LogReader? && AllKnown(rd, es) && Known(rd, e)
    ensures AllKnown(rd, es + [e]) && FromEntries(rd, es + [e]) == FromEntries(rd, es) + [FromEntry(e)]
  {
    hide FromEntry, Known;
    KnownSnoc(rd, es, e);
    if es != [] {
      FromEntriesSnoc(rd, es[1..], e);
      assert (es + [e])[1..] == es[1..] + [e];
    } else {
      assert es + [e] == [e] && [e][1..] == [];
    }
  }

  lemma {:induction false} FromDataSnoc(es: seq<Entry>, e: Entry)
    requires AllKnown(TabletReader, es) && Known(TabletReader, e)
    ensures AllKnown(TabletReader, es + [e])
    ensures FromData(es + [e]) == FromData(es) + [Put(e.fields[0], e.fields[1], e.fields[2])]
  {
    KnownSnoc(TabletReader, es, e);
    if es != [] {
      FromDataSnoc(es[1..], e);
      assert (es + [e])[1..] == es[1..] + [e];
    } else {
      assert es + [e] == [e] && [e][1..] == [];
    }
  }

  /** done has been recovered from the file and rest is still to be read. */
  ghost predicate ReadSoFar(rd: Reader, file: string, done: seq<Entry>, rest: string) {
    AllKnown(rd, done) && ReadAll(rd, file) == Prepend(done, ReadAll(rd, rest))
  }

  lemma NothingRead(rd: Reader, file: string)
    ensures ReadSoFar(rd, file, [], file)
  {
    hide ReadAll;
    var p := ReadAll(rd, file);
    assert p.Entries? ==> [] + p.es == p.es;
  }

  lemma ReadAllStep(rd: Reader, rest: string)
    requires rest != ""
    ensures var one := ReadOne(rd, rest);
            && (one.Bad? ==> ReadAll(rd, rest) == Crash)
            && (one.Junk? ==> ReadAll(rd, rest) == ReadAll(rd, one.rest))
            && (one.Rec? ==> ReadAll(rd, rest) == Prepend([one.e], ReadAll(rd, one.rest)))
  {
    hide ReadOne, Prepend;
  }

  lemma ReadRecord(rd: Reader, file: string, done: seq<Entry>, rest: string)
    requires rest != "" && ReadSoFar(rd, file, done, rest)
    ensures ReadOne(rd, rest).Bad? ==> ReadAll(rd, file) == Crash
    ensures ReadOne(rd, rest).Junk? && rd.LogReader? ==> ReadSoFar(rd, file, done, ReadOne(rd, rest).rest)
    ensures ReadOne(rd, rest).Rec? ==> ReadSoFar(rd, file, done + [ReadOne(rd, rest).e], ReadOne(rd, rest).rest)
  {
    hide ReadOne, ReadAll, Arity, Prepend, AllKnown, Known;
    var one := ReadOne(rd, rest);
    ReadAllStep(rd, rest);
    if one.Bad? {
      PrependCrash(done);
    } else if one.Rec? {
      RecordIsKnown(rd, rest);
      KnownSnoc(rd, done, one.e);
      PrependSnoc(done, one.e, ReadAll(rd, one.rest));
    }
  }

  lemma PrependCrash(done: seq<Entry>)
    ensures Prepend(done, Crash) == Crash
  {
  }

  lemma RecordIsKnown(rd: Reader, rest: string)
    requires rest != "" && ReadOne(rd, rest).Rec?
    ensures Known(rd, ReadOne(rd, rest).e)
  {
    hide ReadOne;
  }

  lemma PrependSnoc(done: seq<Entry>, e: Entry, p: Parsed)
    ensures Prepend(done, Prepend([e], p)) == Prepend(done + [e], p)
  {
    assert p.Entries? ==> done + ([e] + p.es) == done + [e] + p.es;
  }

  lemma AllRead(rd: Reader, file: string, done: seq<Entry>)
    requires ReadSoFar(rd, file, done, "")
    ensures ReadAll(rd, file) == Entries(done)
  {
    assert done + [] == done;
  }
}
