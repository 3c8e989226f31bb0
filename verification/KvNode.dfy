// The node process: the fields its calls update and the loops that write and read its files.
// The ghost field `node` is the node of the partition model; every call says which of its steps it took.
module KvNode {
  import opened Tablets
  import opened Decimals
  import opened Format
  import opened Disk
  import opened Durable
  import opened FileLoops

  const PRIM_UNKNOWN: int := -2
  const PRIM_ME: int := -1

  /** A call answers, hands the request to the peer it believes is primary, or lets the exception through that
      the master's silence raises. */
  datatype Outcome = Reply(code: Code, count: nat) | Forward(peer: nat) | Raised

  /** std::find: the first index, or -1. */
  function FirstIndex(xs: seq<string>, x: string): (i: int)
    ensures -1 <= i < |xs|
    ensures i >= 0 ==> xs[i] == x
    ensures i < 0 ==> x !in xs
  {
    if xs == [] then -1
    else if xs[0] == x then 0
    else
      var i := FirstIndex(xs[1..], x);
      if i < 0 then -1 else i + 1
  }

  /** How a node files an address it is told is the primary's. */
  function Resolve(addr: string, peerAddrs: seq<string>, p: string): (i: int)
    ensures PRIM_UNKNOWN <= i < |peerAddrs|
    ensures i == PRIM_ME <==> p == addr
    ensures i == PRIM_UNKNOWN <==> p != addr && p !in peerAddrs
    ensures i >= 0 ==> peerAddrs[i] == p
  {
    if p == addr then PRIM_ME
    else if FirstIndex(peerAddrs, p) < 0 then PRIM_UNKNOWN
    else FirstIndex(peerAddrs, p)
  }

  // An operation applied on its own, with its log record: what a peer call does.
  function Logged(n: Node, op: Op): Node {
    var n' := LogOp(n, op);
    ApplyPending(n', op.row)
  }

  class KVStore {
    const addr: string
    const peerAddrs: seq<string>
    var tablet: Tablet
    var logFile: string
    var dbFile: string
    var primaryIdx: int
    var serving: bool
    ghost var node: Node

    ghost predicate Valid()
      reads this
    {
      && node.mem == tablet
      && Files(node.log, node.db)
      && PRIM_UNKNOWN <= primaryIdx < |peerAddrs|
    }

    ghost predicate Files(log: seq<Op>, db: Tablet)
      reads this`logFile, this`dbFile
    {
      && logFile == PrintLog(log)
      && DropEmptyRows(db) == db
      && Holds(dbFile, db)
    }

    /** The file lists the cells of the tablet, in some order. */
    static ghost predicate Holds(file: string, t: Tablet) {
      exists puts :: Enumerates(puts, t) && file == PrintTablet(puts)
    }

    constructor (addr: string, peerAddrs: seq<string>)
      ensures Valid() && tablet == map[] && logFile == "" && dbFile == ""
      ensures this.addr == addr && this.peerAddrs == peerAddrs
      ensures primaryIdx == PRIM_UNKNOWN && serving
    {
      this.addr, this.peerAddrs := addr, peerAddrs;
      tablet, logFile, dbFile := map[], "", "";
      primaryIdx, serving := PRIM_UNKNOWN, true;
      node := Node(map[], map[], [], map[], false, false, map[], []);
      assert Enumerates([], map[]) && PrintTablet([]) == "";
    }

    // ---- memory ----

    method ApplyPut(row: string, col: string, data: string) returns (written: nat)
      modifies this`tablet
      ensures tablet == DoPut(old(tablet), row, col, data) && written == |data|
    {
      var cells: Row := if row in tablet then tablet[row] else map[];
      cells := cells[col := data];
      tablet := tablet[row := cells];
      written := |data|;
    }

    method ApplyDelete(row: string, col: string) returns (deleted: nat)
      modifies this`tablet
      ensures tablet == DoDelete(old(tablet), row, col)
      ensures deleted == if Cell(old(tablet), row, col).Some? then 1 else 0
    {
      if row !in tablet {
        return 0;
      }
      var cells := tablet[row];
      if col !in cells {
        return 0;
      }
      tablet := tablet[row := cells - {col}];
      deleted := 1;
    }

    // ---- the log ----

    method LogPut(row: string, col: string, data: string) returns (written: nat)
      requires Valid()
      modifies this`logFile, this`node
      ensures Valid() && node == LogOp(old(node), Op.Put(row, col, data))
      ensures |logFile| == |old(logFile)| + written
    {
      hide PrintLog, Holds, DropEmptyRows, PrintEntry, ToEntry, Decimal;
      var op := "PUT" + " " + Decimal(|row|) + " " + Decimal(|col|) + " " + Decimal(|data|) + "\n" + row + "\n" + col + "\n";
      logFile := logFile + op;
      logFile := logFile + data;
      logFile := logFile + "\n";
      written := |op| + |data| + 1;
      PutText(old(logFile), op, row, col, data);
      PrintLogSnoc(node.log, Op.Put(row, col, data));
      node := LogOp(node, Op.Put(row, col, data));
    }

    method LogDelete(row: string, col: string) returns (written: nat)
      requires Valid()
      modifies this`logFile, this`node
      ensures Valid() && node == LogOp(old(node), Op.Delete(row, col))
      ensures |logFile| == |old(logFile)| + written
    {
      hide PrintLog, Holds, DropEmptyRows, PrintEntry, ToEntry, Decimal;
      var op := "DELETE " + Decimal(|row|) + " " + Decimal(|col|) + "\n" + row + "\n" + col + "\n";
      logFile := logFile + op;
      written := |op|;
      DeleteText(row, col);
      PrintLogSnoc(node.log, Op.Delete(row, col));
      node := LogOp(node, Op.Delete(row, col));
    }

    // Log, then apply: the local half of every write.
    method LocalPut(row: string, col: string, data: string) returns (written: nat)
      requires Valid()
      modifies this`logFile, this`tablet, this`node
      ensures Valid() && written == |data|
      ensures node == Logged(old(node), Op.Put(row, col, data))
    {
      hide Holds, PrintLog, DropEmptyRows;
      var _ := LogPut(row, col, data);
      written := ApplyPut(row, col, data);
      node := ApplyPending(node, row);
    }

    method LocalDelete(row: string, col: string) returns (deleted: nat)
      requires Valid()
      modifies this`logFile, this`tablet, this`node
      ensures Valid() && deleted == if Cell(old(tablet), row, col).Some? then 1 else 0
      ensures node == Logged(old(node), Op.Delete(row, col))
    {
      hide Holds, PrintLog, DropEmptyRows, Cell;
      var _ := LogDelete(row, col);
      deleted := ApplyDelete(row, col);
      node := ApplyPending(node, row);
    }

    // ---- primary to peer ----

    method PPut(row: string, col: string, data: string) returns (code: Code)
      requires Valid() && row !in node.pending && !node.saving
      modifies this
      ensures Valid() && serving == old(serving) && primaryIdx == old(primaryIdx)
      ensures code == if serving then OK else UNAVAILABLE
      ensures node == if serving then Logged(old(node), Op.Put(row, col, data)) else old(node)
    {
      if !serving {
        return UNAVAILABLE;
      }
      var _ := LocalPut(row, col, data);
      code := OK;
    }

    method PDelete(row: string, col: string) returns (code: Code)
      requires Valid() && row !in node.pending && !node.saving
      modifies this
      ensures Valid() && serving == old(serving) && primaryIdx == old(primaryIdx)
      ensures code == if serving then OK else UNAVAILABLE
      ensures node == if serving then Logged(old(node), Op.Delete(row, col)) else old(node)
    {
      if !serving {
        return UNAVAILABLE;
      }
      var _ := LocalDelete(row, col);
      code := OK;
    }

    // ---- clients ----

    method Get(row: string, col: string) returns (code: Code, value: string)
      requires Valid()
      ensures !serving ==> code == UNAVAILABLE
      ensures serving ==> code == if Cell(tablet, row, col).Some? then OK else NOT_FOUND
      ensures value == if code == OK then Cell(tablet, row, col).value else ""
      ensures serving ==> GetReply(code, value) == Tablets.Get(tablet, row, col)
    {
      if !serving {
        return UNAVAILABLE, "";
      }
      if row !in tablet {
        return NOT_FOUND, "";
      }
      var cells := tablet[row];
      if col !in cells {
        return NOT_FOUND, "";
      }
      code, value := OK, cells[col];
    }

    // ---- the view of the primary ----

    method GetPeerIdx(p: string) returns (idx: int)
      ensures idx == FirstIndex(peerAddrs, p)
    {
      idx := 0;
      while idx < |peerAddrs|
        invariant 0 <= idx <= |peerAddrs|
        invariant p !in peerAddrs[..idx]
      {
        if peerAddrs[idx] == p {
          FirstIndexIs(peerAddrs, p, idx);
          return;
        }
        idx := idx + 1;
      }
      idx := -1;
    }

    method UpdatePrimaryIdx(p: string)
      modifies this`primaryIdx
      ensures primaryIdx == Resolve(addr, peerAddrs, p)
    {
      if p == addr {
        primaryIdx := PRIM_ME;
        return;
      }
      var idx := GetPeerIdx(p);
      if idx == -1 {
        primaryIdx := PRIM_UNKNOWN;
        return;
      }
      primaryIdx := idx;
    }

    /** masterSays: the address the master would answer with, "" when it knows no primary; None when it cannot be
        reached, which raises an exception. */
    method EnsurePartitionJoined(masterSays: Option<string>) returns (joined: bool, raised: bool)
      requires Valid()
      modifies this`primaryIdx
      ensures Valid()
      ensures raised <==> old(primaryIdx) == PRIM_UNKNOWN && masterSays == None
      ensures primaryIdx == NextView(old(primaryIdx), masterSays)
      ensures !raised ==> (joined <==> primaryIdx != PRIM_UNKNOWN)
    {
      raised := false;
      if primaryIdx == PRIM_UNKNOWN {
        if masterSays == None {
          return false, true;
        }
        UpdatePrimaryIdx(masterSays.value);
      }
      joined := primaryIdx != PRIM_UNKNOWN;
    }

    /** The view a write acts on: the one it has, or else the node whose address the master names. */
    function NextView(idx: int, masterSays: Option<string>): (r: int)
      ensures idx != PRIM_UNKNOWN || masterSays == None ==> r == idx
      ensures idx == PRIM_UNKNOWN && masterSays.Some? ==>
        && PRIM_UNKNOWN <= r < |peerAddrs|
        && (r == PRIM_ME <==> masterSays.value == addr)
        && (r == PRIM_UNKNOWN <==> masterSays.value != addr && masterSays.value !in peerAddrs)
        && (r >= 0 ==> peerAddrs[r] == masterSays.value)
    {
      if idx == PRIM_UNKNOWN && masterSays.Some? then Resolve(addr, peerAddrs, masterSays.value) else idx
    }

    method PrimaryUpdate(p: string) returns (code: Code)
      requires Valid()
      modifies this`primaryIdx
      ensures Valid()
      ensures code == if serving then OK else UNAVAILABLE
      ensures primaryIdx == if serving then Resolve(addr, peerAddrs, p) else old(primaryIdx)
    {
      if !serving {
        return UNAVAILABLE;
      }
      UpdatePrimaryIdx(p);
      code := OK;
    }

    method AdminShutdown()
      requires Valid()
      modifies this`serving
      ensures Valid() && !serving
    {
      serving := false;
    }

    // The view of the primary is kept as it was.
    method AdminStartup()
      requires Valid()
      modifies this`serving
      ensures Valid() && serving
    {
      serving := true;
    }

    // ---- writes at the primary ----

    /** The peers are ready for an operation on the row: nobody else holds its lock there. */
    ghost predicate PeersReady(peers: seq<KVStore>, net: seq<bool>, row: string)
      reads peers
    {
      && |net| == |peers|
      && (forall i, j :: 0 <= i < j < |peers| ==> peers[i] != peers[j])
      && (forall i :: 0 <= i < |peers| ==>
            peers[i] != this && peers[i].Valid() && row !in peers[i].node.pending && !peers[i].node.saving)
    }

    /** Every peer whose call got through and who is serving has logged and applied the operation; the others
        are as they were. A failed call is only reported in the server's own log. */
    twostate predicate Delivered(op: Op, peers: seq<KVStore>, net: seq<bool>)
      requires |net| == |peers|
      reads peers
    {
      forall i :: 0 <= i < |peers| ==>
        && peers[i].Valid() && peers[i].serving == old(peers[i].serving)
        && peers[i].node == if net[i] && old(peers[i].serving) then Logged(old(peers[i].node), op) else old(peers[i].node)
    }

    method Multicast(op: Op, peers: seq<KVStore>, net: seq<bool>)
      requires PeersReady(peers, net, op.row)
      modifies peers
      ensures Delivered(op, peers, net)
    {
      hide Valid, Holds, PrintLog, DropEmptyRows, Logged, Cell, Resolve, FirstIndex;
      var i := 0;
      while i < |peers|
        invariant 0 <= i <= |peers|
        invariant forall k :: 0 <= k < |peers| ==> peers[k].Valid() && peers[k].serving == old(peers[k].serving)
        invariant forall k :: 0 <= k < i ==>
          peers[k].node == if net[k] && old(peers[k].serving) then Logged(old(peers[k].node), op) else old(peers[k].node)
        invariant forall k :: i <= k < |peers| ==> peers[k].node == old(peers[k].node)
      {
        if net[i] {
          match op
          case Put(row, col, data) =>
            var _ := peers[i].PPut(row, col, data);
          case Delete(row, col) =>
            var _ := peers[i].PDelete(row, col);
        }
        i := i + 1;
      }
    }

    method Put(row: string, col: string, data: string, masterSays: Option<string>, peers: seq<KVStore>, net: seq<bool>)
      returns (out: Outcome)
      requires Valid() && row !in node.pending && !node.saving && PeersReady(peers, net, row)
      modifies this, peers
      ensures Valid() && serving == old(serving)
      ensures !serving ==> out == Reply(UNAVAILABLE, 0)
      ensures !serving || row == "" || col == "" ==> primaryIdx == old(primaryIdx)
      ensures serving && (row == "" || col == "") ==> out == Reply(INVALID_ARGUMENT, 0)
      ensures serving && row != "" && col != "" ==>
        && primaryIdx == NextView(old(primaryIdx), masterSays)
        && out == (if primaryIdx == PRIM_UNKNOWN then if masterSays == None then Raised else Reply(UNAVAILABLE, 0)
                   else if primaryIdx == PRIM_ME then Reply(OK, |data|) else Forward(primaryIdx))
      ensures out.Reply? && out.code == OK ==>
        node == Logged(old(node), Op.Put(row, col, data)) && Delivered(Op.Put(row, col, data), peers, net)
      ensures !(out.Reply? && out.code == OK) ==>
        node == old(node) && forall i :: 0 <= i < |peers| ==> unchanged(peers[i])
    {
      hide Valid, Holds, PrintLog, DropEmptyRows, Logged, Cell, Resolve, FirstIndex;
      if !serving {
        return Reply(UNAVAILABLE, 0);
      }
      if row == "" || col == "" {
        return Reply(INVALID_ARGUMENT, 0);
      }
      var joined, raised := EnsurePartitionJoined(masterSays);
      if raised {
        return Raised;
      }
      if !joined {
        return Reply(UNAVAILABLE, 0);
      }
      if primaryIdx == PRIM_ME {
        Multicast(Op.Put(row, col, data), peers, net);
        var written := LocalPut(row, col, data);
        return Reply(OK, written);
      }
      out := Forward(primaryIdx);
    }

    /** The condition, tested under the row lock; passing it creates the row. */
    method CheckCPut(row: string, col: string, v1: string) returns (code: Code)
      requires Valid()
      modifies this`tablet, this`node
      ensures Valid() && code == CPutCheck(old(tablet), row, col, v1)
      ensures node == if code == OK then old(node).(mem := TouchRow(old(tablet), row)) else old(node)
    {
      hide Holds, PrintLog, DropEmptyRows;
      if !(row in tablet || v1 == "") {
        return NOT_FOUND;
      }
      var cells := if row in tablet then tablet[row] else map[];
      if !(col in cells || v1 == "") {
        return NOT_FOUND;
      }
      if !((col !in cells && v1 == "") || (col in cells && cells[col] == v1)) {
        return FAILED_PRECONDITION;
      }
      tablet := tablet[row := cells];
      node := node.(mem := tablet);
      assert tablet == TouchRow(old(tablet), row);
      code := OK;
    }

    method CPut(row: string, col: string, v1: string, v2: string, masterSays: Option<string>, peers: seq<KVStore>, net: seq<bool>)
      returns (out: Outcome)
      requires Valid() && row !in node.pending && !node.saving && PeersReady(peers, net, row)
      modifies this, peers
      ensures Valid() && serving == old(serving)
      ensures !serving ==> out == Reply(UNAVAILABLE, 0)
      ensures !serving || row == "" || col == "" ==> primaryIdx == old(primaryIdx)
      ensures serving && (row == "" || col == "") ==> out == Reply(INVALID_ARGUMENT, 0)
      ensures serving && row != "" && col != "" ==>
        && primaryIdx == NextView(old(primaryIdx), masterSays)
        && (primaryIdx == PRIM_UNKNOWN ==> out == if masterSays == None then Raised else Reply(UNAVAILABLE, 0))
        && (primaryIdx >= 0 ==> out == Forward(primaryIdx))
        && (primaryIdx == PRIM_ME ==>
              var code := CPutCheck(old(tablet), row, col, v1);
              out == Reply(code, if code == OK then |v2| else 0))
      ensures out.Reply? && out.code == OK ==>
        && node == Logged(old(node).(mem := TouchRow(old(tablet), row)), Op.Put(row, col, v2))
        && Delivered(Op.Put(row, col, v2), peers, net)
      ensures !(out.Reply? && out.code == OK) ==>
        node == old(node) && forall i :: 0 <= i < |peers| ==> unchanged(peers[i])
    {
      hide Valid, Holds, PrintLog, DropEmptyRows, Logged, Cell, Resolve, FirstIndex, CPutCheck, TouchRow;
      if !serving {
        return Reply(UNAVAILABLE, 0);
      }
      if row == "" || col == "" {
        return Reply(INVALID_ARGUMENT, 0);
      }
      var joined, raised := EnsurePartitionJoined(masterSays);
      if raised {
        return Raised;
      }
      if !joined {
        return Reply(UNAVAILABLE, 0);
      }
      if primaryIdx == PRIM_ME {
        var code := CheckCPut(row, col, v1);
        if code != OK {
          return Reply(code, 0);
        }
        Multicast(Op.Put(row, col, v2), peers, net);
        var written := LocalPut(row, col, v2);
        return Reply(OK, written);
      }
      out := Forward(primaryIdx);
    }

    method Delete(row: string, col: string, masterSays: Option<string>, peers: seq<KVStore>, net: seq<bool>)
      returns (out: Outcome)
      requires Valid() && row !in node.pending && !node.saving && PeersReady(peers, net, row)
      modifies this, peers
      ensures Valid() && serving == old(serving)
      ensures !serving ==> out == Reply(UNAVAILABLE, 0)
      ensures !serving ==> primaryIdx == old(primaryIdx)
      ensures serving ==>
        && primaryIdx == NextView(old(primaryIdx), masterSays)
        && out == (if primaryIdx == PRIM_UNKNOWN then if masterSays == None then Raised else Reply(UNAVAILABLE, 0)
                   else if primaryIdx == PRIM_ME then Reply(OK, if Cell(old(tablet), row, col).Some? then 1 else 0)
                   else Forward(primaryIdx))
      ensures out.Reply? && out.code == OK ==>
        node == Logged(old(node), Op.Delete(row, col)) && Delivered(Op.Delete(row, col), peers, net)
      ensures !(out.Reply? && out.code == OK) ==>
        node == old(node) && forall i :: 0 <= i < |peers| ==> unchanged(peers[i])
    {
      hide Valid, Holds, PrintLog, DropEmptyRows, Logged, Cell, Resolve, FirstIndex;
      if !serving {
        return Reply(UNAVAILABLE, 0);
      }
      var joined, raised := EnsurePartitionJoined(masterSays);
      if raised {
        return Raised;
      }
      if !joined {
        return Reply(UNAVAILABLE, 0);
      }
      if primaryIdx == PRIM_ME {
        Multicast(Op.Delete(row, col), peers, net);
        var deleted := LocalDelete(row, col);
        return Reply(OK, deleted);
      }
      out := Forward(primaryIdx);
    }

    // ---- the checkpoint file ----

    /** The checkpoint: every cell to the file, rows and columns in any order, then the log is truncated.
        As written it may run while an operation is logged and not yet applied. */
    method SaveTablet()
      requires Valid()
      modifies this`dbFile, this`logFile, this`node
      ensures Valid() && node == TruncateLog(SaveDb(old(node)))
    {
      hide PrintLog, PrintTablet, Enumerates, Written;
      var file := "";
      ghost var puts: seq<Op>, last := [], "";
      var rows := tablet.Keys;
      NothingWritten(tablet);
      assert PrintTablet([]) == "" by { EmptyFiles(); }
      assert tablet.Keys - rows == {};
      while rows != {}
        invariant rows <= tablet.Keys && node == old(node)
        invariant Written(puts, tablet, tablet.Keys - rows, last, {}) && Puts(puts) && file == PrintTablet(puts)
      {
        var row :| row in rows;
        file, puts := SaveRow(row, file, puts, tablet.Keys - rows, last);
        assert tablet.Keys - rows + {row} == tablet.Keys - (rows - {row});
        rows := rows - {row};
        last := row;
      }
      assert tablet.Keys - rows == tablet.Keys;
      AllWritten(puts, tablet, last);
      dbFile := file;
      logFile := "";
      node := TruncateLog(SaveDb(node));
      EmptyFiles();
      assert Holds(dbFile, node.db);
    }

    method SaveRow(row: string, file: string, ghost puts: seq<Op>, ghost rows: set<string>, ghost last: string)
      returns (file': string, ghost puts': seq<Op>)
      requires row in tablet && row !in rows
      requires Written(puts, tablet, rows, last, {}) && Puts(puts) && file == PrintTablet(puts)
      ensures Written(puts', tablet, rows + {row}, row, {}) && Puts(puts') && file' == PrintTablet(puts')
    {
      hide PrintTablet, Written, DataEntry, PrintEntry;
      file', puts' := file, puts;
      StartRow(puts, tablet, rows, last, row);
      var cols := tablet[row].Keys;
      assert tablet[row].Keys - cols == {};
      while cols != {}
        invariant cols <= tablet[row].Keys
        invariant Written(puts', tablet, rows, row, tablet[row].Keys - cols)
        invariant Puts(puts') && file' == PrintTablet(puts')
      {
        var col :| col in cols;
        var data := tablet[row][col];
        var op := "DATA" + " " + Decimal(|row|) + " " + Decimal(|col|) + " " + Decimal(|data|) + "\n" + row + "\n" + col + "\n";
        file' := file' + (op + data + "\n");
        ThreeFieldText("DATA", row, col, data);
        DataText(row, col, data);
        PrintTabletSnoc(puts', Op.Put(row, col, data));
        WriteCell(puts', tablet, rows, row, tablet[row].Keys - cols, col);
        puts' := puts' + [Op.Put(row, col, data)];
        assert tablet[row].Keys - cols + {col} == tablet[row].Keys - (cols - {col});
        cols := cols - {col};
      }
      assert tablet[row].Keys - cols == tablet[row].Keys;
      FinishRow(puts', tablet, rows, row, tablet[row].Keys);
    }

    /** Start-up reads the checkpoint file into an empty tablet; alive is false when the process dies. */
    method LoadTablet() returns (alive: bool)
      requires Valid() && tablet == map[]
      modifies this`tablet, this`node
      ensures Valid() && node == old(node).(mem := tablet)
      ensures alive <==> Disk.LoadTablet(dbFile).Some?
      ensures alive ==> tablet == Disk.LoadTablet(dbFile).value
    {
      hide ReadSoFar, GetLine, GetToken, ReadSizes, ReadFields, FromData, ReadAll, Files;
      var rd := TabletReader;
      var rest := dbFile;
      ghost var done: seq<Entry> := [];
      NothingRead(rd, dbFile);
      assert FromData([]) == [] by { NoEntries(rd); }
      while rest != ""
        invariant ReadSoFar(rd, dbFile, done, rest) && AllKnown(rd, done)
        invariant tablet == Replay(map[], FromData(done))
        invariant node == old(node)
        decreases |rest|
      {
        ReadRecord(rd, dbFile, done, rest);
        var (line, body, more) := GetLine(rest);
        var (op, offset) := GetToken(line, 0);
        if op != "DATA" {
          node := node.(mem := tablet);
          return false;
        }
        var sizes := ReadSizes(line, offset, 3);
        if sizes == None {
          node := node.(mem := tablet);
          return false;
        }
        var (fields, next, ok) := ReadFields(body, more, sizes.value);
        var e := Entry(op, fields);
        assert ReadOne(rd, rest) == Rec(e, next);
        FromDataSnoc(done, e);
        var _ := ApplyPut(fields[0], fields[1], fields[2]);
        done := done + [e];
        rest := next;
      }
      AllRead(rd, dbFile, done);
      node := node.(mem := tablet);
      alive := true;
    }

    /** Start-up replays the log file onto what the checkpoint file held, with the extra skip after a DELETE
        record; count is the number of operations applied. */
    method ApplyLog() returns (alive: bool, count: nat)
      requires Valid()
      modifies this`tablet, this`node
      ensures Valid() && node == old(node).(mem := tablet)
      ensures alive <==> ReadLog(true, logFile).Some?
      ensures alive ==> var ops := ReadLog(true, logFile).value;
                        tablet == Replay(old(tablet), ops) && count == |ops|
    {
      hide ReadSoFar, GetLine, GetToken, ReadSizes, ReadFields, FromEntries, ReadAll, Files, ReadOne, FromEntry;
      var rd := LogReader(true);
      var rest := logFile;
      ghost var done: seq<Entry> := [];
      count := 0;
      NothingRead(rd, logFile);
      assert FromEntries(rd, []) == [] by { NoEntries(rd); }
      while rest != ""
        invariant ReadSoFar(rd, logFile, done, rest) && AllKnown(rd, done)
        invariant tablet == Replay(old(tablet), FromEntries(rd, done)) && count == |FromEntries(rd, done)|
        invariant node == old(node)
        decreases |rest|
      {
        ReadRecord(rd, logFile, done, rest);
        LogRound(rest);
        var (line, body, more) := GetLine(rest);
        var (op, offset) := GetToken(line, 0);
        if op == "DELETE" || op == "PUT" {
          var sizes := ReadSizes(line, offset, if op == "DELETE" then 2 else 3);
          if sizes == None {
            node := node.(mem := tablet);
            return false, count;
          }
          var (fields, next, ok) := ReadFields(body, more, sizes.value);
          var e := Entry(op, fields);
          var skip := ok && op == "DELETE";
          RecordOp(op, fields);
          FromEntriesSnoc(rd, done, e);
          if op == "DELETE" {
            var _ := ApplyDelete(fields[0], fields[1]);
          } else {
            var _ := ApplyPut(fields[0], fields[1], fields[2]);
          }
          count := count + 1;
          done := done + [e];
          rest := if skip then Skip1(next) else next;
        } else {
          rest := body;
        }
      }
      AllRead(rd, logFile, done);
      node := node.(mem := tablet);
      alive := true;
    }

    /** Start-up of a node that is down: the checkpoint file, the log, and then what a peer streams, nothing when
        none is alive. Where the log reads back this is the restart of the partition model. */
    method Init(puts: seq<Op>) returns (alive: bool)
      requires Valid() && node == Down(node) && Puts(puts)
      modifies this`tablet, this`node
      ensures Valid()
      ensures alive <==> RecoverBytes(true, dbFile, logFile).Some?
      ensures alive ==> tablet == Replay(RecoverBytes(true, dbFile, logFile).value, puts)
      ensures alive ==> node == old(node).(mem := tablet, unsaved := true, origin := tablet, history := [])
      ensures CellsFit(old(node.db)) && AllOpsFit(old(node.log)) && DeletesOnlyLast(old(node.log)) ==>
              alive && node == Restart(old(node), puts)
    {
      hide Disk.LoadTablet, ReadLog, Holds, DropEmptyRows, PrintLog, CellsFit;
      if CellsFit(node.db) && AllOpsFit(node.log) && DeletesOnlyLast(node.log) {
        FilesRecover(node, dbFile, logFile);
      }
      alive := LoadTablet();
      if alive {
        var count;
        alive, count := ApplyLog();
      }
      if alive {
        SyncTabletFromPeer(puts);
        node := node.(unsaved := true, origin := tablet, history := []);
      }
    }

    /** The cells a peer streams are put one by one; nothing is removed and nothing is logged. */
    method SyncTabletFromPeer(puts: seq<Op>)
      requires Valid() && Puts(puts)
      modifies this`tablet, this`node
      ensures Valid() && node == old(node).(mem := tablet)
      ensures tablet == Replay(old(tablet), puts)
    {
      hide Files;
      var i := 0;
      assert puts[..0] == [];
      while i < |puts|
        invariant 0 <= i <= |puts| && tablet == Replay(old(tablet), puts[..i])
        invariant Valid() && node == old(node).(mem := tablet)
      {
        assert puts[..i] + [puts[i]] == puts[..i + 1];
        var _ := ApplyPut(puts[i].row, puts[i].col, puts[i].data);
        node := node.(mem := tablet);
        i := i + 1;
      }
      assert puts[..i] == puts;
    }
  }

  predicate CellsFit(t: Tablet) {
    forall r, c :: r in t && c in t[r] ==> OpFits(Op.Put(r, c, t[r][c]))
  }

  lemma FilesRecover(n: Node, dbFile: string, logFile: string)
    requires KVStore.Holds(dbFile, n.db) && DropEmptyRows(n.db) == n.db && logFile == PrintLog(n.log)
    requires CellsFit(n.db) && AllOpsFit(n.log) && DeletesOnlyLast(n.log)
    ensures RecoverBytes(true, dbFile, logFile) == Some(Recover(n))
  {
    hide RecoverBytes;
    var puts: seq<Op> :| Enumerates(puts, n.db) && dbFile == PrintTablet(puts);
    forall i | 0 <= i < |puts| ensures OpFits(puts[i]) {
      assert Cell(n.db, puts[i].row, puts[i].col) == Some(puts[i].data);
    }
    RecoverFromBytes(n, puts, true);
  }

  ghost predicate Puts(puts: seq<Op>) {
    forall i :: 0 <= i < |puts| ==> puts[i].Put?
  }

  lemma EmptyFiles()
    ensures PrintLog([]) == "" && PrintTablet([]) == ""
  {
  }

  lemma NoEntries(rd: Reader)
    ensures AllKnown(rd, []) && FromData([]) == [] && (rd.LogReader? ==> FromEntries(rd, []) == [])
  {
  }

  lemma DataText(row: string, col: string, data: string)
    ensures DataEntry(Op.Put(row, col, data)) == Entry("DATA", [row, col, data])
  {
  }

  // One round of the log reader as the loop takes it apart.
  lemma LogRound(rest: string)
    requires rest != ""
    ensures var (line, body, more) := GetLine(rest);
            var (op, offset) := GetToken(line, 0);
            var one := ReadOne(LogReader(true), rest);
            if op != "DELETE" && op != "PUT" then one == Junk(body)
            else
              var sizes := ReadSizes(line, offset, if op == "DELETE" then 2 else 3);
              if sizes == None then one == Bad
              else
                var (fields, next, ok) := ReadFields(body, more, sizes.value);
                one == Rec(Entry(op, fields), if ok && op == "DELETE" then Skip1(next) else next)
  {
    hide GetToken, GetLine, ReadSizes, ReadFields;
  }

  lemma RecordOp(op: string, fields: seq<string>)
    requires if op == "DELETE" then |fields| == 2 else op == "PUT" && |fields| == 3
    ensures FromEntry(Entry(op, fields)) ==
            if op == "DELETE" then Op.Delete(fields[0], fields[1]) else Op.Put(fields[0], fields[1], fields[2])
  {
  }

  lemma {:induction false} FirstIndexIs(xs: seq<string>, x: string, i: nat)
    requires i < |xs| && xs[i] == x && x !in xs[..i]
    ensures FirstIndex(xs, x) == i
  {
    if i > 0 {
      assert xs[..i][0] == xs[0];
      assert xs[1..][..i - 1] == xs[..i][1..];
      FirstIndexIs(xs[1..], x, i - 1);
    }
  }

  // ---- the text of one record ----

  lemma SizesTextStep(pre: string, first: string, rest: seq<string>)
    ensures pre + SizesText([first] + rest) == pre + " " + Decimal(|first|) + SizesText(rest)
  {
    assert ([first] + rest)[1..] == rest;
    Regroup(pre, " ", Decimal(|first|), SizesText(rest));
  }

  lemma FieldsTextStep(pre: string, first: string, rest: seq<string>)
    ensures pre + FieldsText([first] + rest) == pre + first + "\n" + FieldsText(rest)
  {
    assert ([first] + rest)[1..] == rest;
    Regroup(pre, first, "\n", FieldsText(rest));
  }

  // Three fields: a PUT record of the log, a DATA record of the checkpoint file.
  lemma ThreeFieldText(name: string, row: string, col: string, data: string)
    ensures PrintEntry(Entry(name, [row, col, data])) ==
            name + " " + Decimal(|row|) + " " + Decimal(|col|) + " " + Decimal(|data|) + "\n" + row + "\n" + col + "\n"
            + data + "\n"
  {
    hide SizesText, FieldsText, Decimal;
    var h1 := name + " " + Decimal(|row|);
    var h2 := h1 + " " + Decimal(|col|);
    var h3 := h2 + " " + Decimal(|data|);
    assert [row, col, data] == [row] + ([col] + ([data] + []));
    SizesTextStep(name, row, [col] + ([data] + []));
    SizesTextStep(h1, col, [data] + []);
    SizesTextStep(h2, data, []);
    NoFields();
    assert h3 + "" == h3;
    var t0 := h3 + "\n";
    var t1 := t0 + row + "\n";
    var t2 := t1 + col + "\n";
    FieldsTextStep(t0, row, [col] + ([data] + []));
    FieldsTextStep(t1, col, [data] + []);
    FieldsTextStep(t2, data, []);
    assert t2 + data + "\n" + "" == t2 + data + "\n";
  }

  lemma PutText(file: string, op: string, row: string, col: string, data: string)
    requires op == "PUT" + " " + Decimal(|row|) + " " + Decimal(|col|) + " " + Decimal(|data|) + "\n" + row + "\n" + col + "\n"
    ensures file + op + data + "\n" == file + PrintEntry(ToEntry(Op.Put(row, col, data)))
  {
    ThreeFieldText("PUT", row, col, data);
    hide PrintEntry, Decimal;
    assert file + op + data + "\n" == file + (op + data + "\n");
  }

  lemma DeleteText(row: string, col: string)
    ensures PrintEntry(ToEntry(Op.Delete(row, col))) ==
            "DELETE " + Decimal(|row|) + " " + Decimal(|col|) + "\n" + row + "\n" + col + "\n"
  {
    hide SizesText, FieldsText, Decimal;
    var h1 := "DELETE" + " " + Decimal(|row|);
    var h2 := h1 + " " + Decimal(|col|);
    assert [row, col] == [row] + ([col] + []);
    SizesTextStep("DELETE", row, [col] + []);
    SizesTextStep(h1, col, []);
    NoFields();
    assert "DELETE" + " " == "DELETE ";
    assert h2 + "" == h2;
    var t0 := h2 + "\n";
    var t1 := t0 + row + "\n";
    FieldsTextStep(t0, row, [col] + []);
    FieldsTextStep(t1, col, []);
    assert t1 + col + "\n" + "" == t1 + col + "\n";
  }

  lemma NoFields()
    ensures SizesText([]) == "" && FieldsText([]) == ""
  {
  }
}
