// One node: memory, log and checkpoint file, as the steps of an operation and of a checkpoint
// change them. The log lock covers logging an operation and writing a checkpoint, but not applying
// an operation, so an operation can be logged and not yet applied when a checkpoint starts.
module Durable {
  import opened Tablets
  import opened Decimals
  import opened Format
  import opened Disk

  /** pending: logged, not yet applied; at most one operation a row, because its writer holds the row lock.
      saving: the checkpoint file is written, the log not yet truncated.
      unsaved: memory holds cells from a peer that no file holds yet.
      origin: memory as the node last started with it.
      history: every record appended to the log since then, truncated or not. */
  datatype Node = Node(mem: Tablet, db: Tablet, log: seq<Op>, pending: map<string, Op>,
                       saving: bool, unsaved: bool, origin: Tablet, history: seq<Op>)

  function LogOp(n: Node, op: Op): Node {
    n.(log := n.log + [op], history := n.history + [op], pending := n.pending[op.row := op])
  }

  function ApplyPending(n: Node, row: string): Node
    requires row in n.pending
  {
    n.(mem := Apply(n.mem, n.pending[row]), pending := n.pending - {row})
  }

  function SaveDb(n: Node): Node {
    n.(db := DropEmptyRows(n.mem), saving := true)
  }

  function TruncateLog(n: Node): Node {
    n.(log := [], saving := false, unsaved := false)
  }

  /** What start-up rebuilds from the two files. */
  function Recover(n: Node): Tablet {
    Replay(n.db, n.log)
  }

  function Down(n: Node): Node {
    n.(mem := map[], pending := map[], saving := false, unsaved := false)
  }

  /** Start-up: recover, then put every cell a peer streams. */
  function Restart(n: Node, puts: seq<Op>): Node {
    var mem := Replay(Recover(n), puts);
    n.(mem := mem, pending := map[], saving := false, unsaved := true, origin := mem, history := [])
  }

  /** The cell with the logged but unapplied operation of its row, if that touches it. */
  function PendingCell(n: Node, row: string, col: string): Option<string> {
    if row in n.pending && n.pending[row].col == col then Effect(n.pending[row]) else Cell(n.mem, row, col)
  }

  /** Recovery gives memory plus the operations logged and not yet applied, up to empty rows. */
  ghost predicate Recoverable(n: Node) {
    forall r, c :: Cell(Recover(n), r, c) == PendingCell(n, r, c)
  }

  predicate RowsMatch(n: Node) {
    forall r :: r in n.pending ==> n.pending[r].row == r
  }

  lemma LogOpRecoverable(n: Node, op: Op)
    requires Recoverable(n) && op.row !in n.pending
    ensures Recoverable(LogOp(n, op))
  {
    var n' := LogOp(n, op);
    forall r, c ensures Cell(Recover(n'), r, c) == PendingCell(n', r, c) {
      ApplyCell(Recover(n), op, r, c);
      assert Cell(Recover(n), r, c) == PendingCell(n, r, c);
    }
  }

  lemma ApplyPendingRecoverable(n: Node, row: string)
    requires Recoverable(n) && RowsMatch(n) && row in n.pending
    ensures Recoverable(ApplyPending(n, row))
  {
    var n' := ApplyPending(n, row);
    forall r, c ensures Cell(Recover(n'), r, c) == PendingCell(n', r, c) {
      ApplyCell(n.mem, n.pending[row], r, c);
      assert Cell(Recover(n), r, c) == PendingCell(n, r, c);
    }
  }

  /** A crash after the checkpoint file is written and before the log is truncated replays the log
      over the new file: that changes nothing. */
  lemma SaveDbRecoverable(n: Node)
    requires Recoverable(n) && n.pending == map[]
    ensures Recoverable(SaveDb(n))
  {
    var n' := SaveDb(n);
    DropEmptyRowsKeepsCells(n.mem);
    forall r, c ensures Cell(Recover(n'), r, c) == PendingCell(n', r, c) {
      ReplayCell(n.db, n.log, r, c);
      ReplayCell(n'.db, n.log, r, c);
      assert Cell(Recover(n), r, c) == PendingCell(n, r, c);
    }
  }

  /** Once truncated, the checkpoint just written stands alone. No assumption on what was on disk before. */
  lemma TruncateLogRecoverable(n: Node)
    requires n.pending == map[] && SameCells(n.db, n.mem)
    ensures Recoverable(TruncateLog(n))
  {
  }

  /** A whole checkpoint keeps recovery intact exactly when every operation it finds logged but not
      applied rewrites its cell to what memory already holds: in particular when it finds none. */
  lemma CheckpointIffNothingPending(n: Node)
    requires Recoverable(n) && RowsMatch(n)
    ensures Recoverable(TruncateLog(SaveDb(n))) <==>
            forall r :: r in n.pending ==> Effect(n.pending[r]) == Cell(n.mem, r, n.pending[r].col)
  {
    var n' := TruncateLog(SaveDb(n));
    DropEmptyRowsKeepsCells(n.mem);
    assert Recover(n') == n'.db;
    assert forall r, c :: Cell(n'.db, r, c) == Cell(n.mem, r, c);
    if Recoverable(n') {
      forall r | r in n.pending ensures Effect(n.pending[r]) == Cell(n.mem, r, n.pending[r].col) {
        assert Cell(Recover(n'), r, n.pending[r].col) == PendingCell(n', r, n.pending[r].col);
      }
    }
  }

  /** The failure itself: a put is logged, a checkpoint runs, the put is applied and acknowledged, the node
      crashes: memory had the value, the files do not. */
  lemma CheckpointLosesALoggedPut(row: string, col: string, data: string)
    ensures var n0 := Node(map[], map[], [], map[], false, false, map[], []);
            var n := ApplyPending(TruncateLog(SaveDb(LogOp(n0, Put(row, col, data)))), row);
            Cell(n.mem, row, col) == Some(data) && Cell(Recover(n), row, col) == None
  {
  }

  // ---- what a node has logged since it started ----

  /** Memory, with the operations logged and not yet applied, is what the node started with and then every
      record it has logged since, whatever checkpoints it took. */
  ghost predicate Traced(n: Node) {
    forall r, c :: Cell(Replay(n.origin, n.history), r, c) == PendingCell(n, r, c)
  }

  /** The value the node's last record on a cell left it with; what it started with if it has none. */
  function LastRecord(n: Node, row: string, col: string): Option<string> {
    var m := LastTouch(n.history, row, col);
    if m < 0 then Cell(n.origin, row, col) else Effect(n.history[m])
  }

  lemma LogOpTraced(n: Node, op: Op)
    requires Traced(n) && op.row !in n.pending
    ensures Traced(LogOp(n, op))
  {
    var n' := LogOp(n, op);
    forall r, c ensures Cell(Replay(n'.origin, n'.history), r, c) == PendingCell(n', r, c) {
      ApplyCell(Replay(n.origin, n.history), op, r, c);
      assert Cell(Replay(n.origin, n.history), r, c) == PendingCell(n, r, c);
    }
  }

  lemma ApplyPendingTraced(n: Node, row: string)
    requires Traced(n) && RowsMatch(n) && row in n.pending
    ensures Traced(ApplyPending(n, row))
  {
    var n' := ApplyPending(n, row);
    forall r, c ensures Cell(Replay(n'.origin, n'.history), r, c) == PendingCell(n', r, c) {
      ApplyCell(n.mem, n.pending[row], r, c);
      assert Cell(Replay(n.origin, n.history), r, c) == PendingCell(n, r, c);
    }
  }

  lemma LastRecordIsHeld(n: Node, row: string, col: string)
    requires Traced(n) && n.pending == map[]
    ensures Cell(n.mem, row, col) == LastRecord(n, row, col)
  {
    ReplayCell(n.origin, n.history, row, col);
    assert Cell(Replay(n.origin, n.history), row, col) == PendingCell(n, row, col);
  }

  // ---- a node that has rejoined and not yet checkpointed ----

  /** Its log ends with what it has logged since it started. */
  predicate Tail(n: Node) {
    |n.history| <= |n.log| && n.log[|n.log| - |n.history|..] == n.history
  }

  /** Every cell that no record since the start touches is in the files as the node started with it: the peer
      had nothing on it that the files do not hold. */
  ghost predicate SyncedCellsOnDisk(n: Node)
    requires Tail(n)
  {
    forall r, c :: LastTouch(n.history, r, c) < 0 ==>
      Cell(Replay(n.db, n.log[..|n.log| - |n.history|]), r, c) == Cell(n.origin, r, c)
  }

  /** Before its first checkpoint such a node recovers what it holds exactly when what it got from its peer is
      in its files already or has been written over since. */
  lemma UnsavedRecoverableIff(n: Node)
    requires Traced(n) && Tail(n)
    ensures Recoverable(n) <==> SyncedCellsOnDisk(n)
  {
    hide PendingCell, Cell, Replay;
    var start := n.log[..|n.log| - |n.history|];
    var t := Replay(n.db, start);
    assert n.log == start + n.history;
    ReplayConcat(n.db, start, n.history);
    forall r, c
      ensures Cell(Recover(n), r, c) == PendingCell(n, r, c) <==>
              (LastTouch(n.history, r, c) < 0 ==> Cell(t, r, c) == Cell(n.origin, r, c))
    {
      ReplayCell(t, n.history, r, c);
      ReplayCell(n.origin, n.history, r, c);
      assert Cell(Replay(n.origin, n.history), r, c) == PendingCell(n, r, c);
    }
  }

  // ---- synchronising from a peer ----

  lemma SyncCell(local: Tablet, puts: seq<Op>, peer: Tablet, row: string, col: string)
    requires Enumerates(puts, peer)
    ensures Cell(Replay(local, puts), row, col) ==
            if Cell(peer, row, col).Some? then Cell(peer, row, col) else Cell(local, row, col)
  {
    ReplayCell(local, puts, row, col);
    var i := LastTouch(puts, row, col);
    if i < 0 {
      assert !Lists(puts, row, col);
    }
  }

  /** Synchronising only puts: it yields the peer's cells exactly when the peer has every local cell. */
  lemma SyncIffNothingDeleted(local: Tablet, puts: seq<Op>, peer: Tablet)
    requires Enumerates(puts, peer)
    ensures SameCells(Replay(local, puts), peer) <==>
            forall r, c :: Cell(local, r, c).Some? ==> Cell(peer, r, c).Some?
  {
    var synced := Replay(local, puts);
    forall r, c
      ensures Cell(synced, r, c) == if Cell(peer, r, c).Some? then Cell(peer, r, c) else Cell(local, r, c)
    {
      SyncCell(local, puts, peer, r, c);
    }
    if SameCells(synced, peer) {
      forall r, c | Cell(local, r, c).Some? ensures Cell(peer, r, c).Some? {
        assert Cell(synced, r, c) == Cell(peer, r, c);
      }
    }
  }

  /** So a node that crashes right after it has rejoined recovers what it held exactly when its files already
      had every cell of its peer. */
  lemma RejoinRecoverableIff(n: Node, puts: seq<Op>, peer: Tablet)
    requires Enumerates(puts, peer)
    ensures Recoverable(Restart(n, puts)) <==>
            forall r, c :: Cell(peer, r, c).Some? ==> Cell(Recover(n), r, c) == Cell(peer, r, c)
  {
    var n' := Restart(n, puts);
    assert Recover(n') == Recover(n);
    forall r, c
      ensures Cell(Recover(n'), r, c) == PendingCell(n', r, c) <==>
              (Cell(peer, r, c).Some? ==> Cell(Recover(n), r, c) == Cell(peer, r, c))
    {
      SyncCell(Recover(n), puts, peer, r, c);
    }
  }

  // ---- recovery from the bytes of the two files ----

  /** Start-up as the node runs it: load the checkpoint file, then apply the log file. */
  function RecoverBytes(extraSkip: bool, dbBytes: string, logBytes: string): Option<Tablet> {
    match LoadTablet(dbBytes)
    case None => None
    case Some(t) =>
      match ReadLog(extraSkip, logBytes)
      case None => None
      case Some(ops) => Some(Replay(t, ops))
  }

  lemma RecoverFromBytes(n: Node, puts: seq<Op>, extraSkip: bool)
    requires Enumerates(puts, n.db) && DropEmptyRows(n.db) == n.db
    requires AllOpsFit(puts) && AllOpsFit(n.log)
    requires extraSkip ==> DeletesOnlyLast(n.log)
    ensures RecoverBytes(extraSkip, PrintTablet(puts), PrintLog(n.log)) == Some(Recover(n))
  {
    TabletRoundTrip(puts, n.db);
    LogReadsBackIff(extraSkip, n.log);
  }
}
