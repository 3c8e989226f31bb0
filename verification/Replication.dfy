// A partition: its nodes, the operations in flight, and every step that can interleave.
// A peer call either delivers (log, then apply, under the peer's row lock) or fails.
module Replication {
  import opened Tablets
  import opened Disk
  import opened Durable

  /** An operation holding its row lock at the primary; the peers its call reached, and those it did not. */
  datatype Flight = Flight(op: Op, applied: set<nat>, failed: set<nat>)

  /** acked: operations acknowledged, in the order they completed at their primary.
      A line of primaries starts from a tablet, base; since: the operations acknowledged in this line. It goes on
      while each new primary holds what the line has made, and a new one starts when one does not.
      current: nodes alive that missed no delivery since they last held the cells of the line.
      orphans: operations in flight when their primary crashed, until a later one on the same cell completes. */
  datatype System = System(base: Tablet, nodes: seq<Node>, primary: Option<nat>, flight: map<string, Flight>,
                           acked: seq<Op>, since: seq<Op>, alive: set<nat>, current: set<nat>, orphans: set<Op>)

  datatype Step =
    | Begin(op: Op)
    | BeginCPut(row: string, col: string, v1: string, v2: string)
    | PeerLog(i: nat, row: string)
    | PeerApply(i: nat, row: string)
    | PeerFail(i: nat, row: string)
    | PrimaryLog(row: string)
    | Commit(row: string)
    | Save(i: nat)
    | Truncate(i: nat)
    | Crash(i: nat)
    | LateLog(i: nat, op: Op)
    | Appoint(i: nat)
    | Rejoin(i: nat, j: nat, puts: seq<Op>)
    | StartAlone(i: nat)

  // Every peer call of the row's operation has returned.
  predicate Joined(s: System, row: string)
    requires row in s.flight && s.primary.Some?
  {
    forall i: nat :: i < |s.nodes| && i != s.primary.value ==> i in s.flight[row].applied + s.flight[row].failed
  }

  /** A put needs a row and a column; a delete is not checked. */
  predicate WellFormedOp(op: Op) {
    op.Put? ==> op.row != "" && op.col != ""
  }

  ghost predicate Enabled(s: System, step: Step) {
    match step
    case Begin(op) =>
      s.primary.Some? && op.row !in s.flight && WellFormedOp(op)
    case BeginCPut(row, col, v1, v2) =>
      && s.primary.Some? && s.primary.value < |s.nodes| && row !in s.flight && row != "" && col != ""
      && CPutCheck(s.nodes[s.primary.value].mem, row, col, v1) == OK
    case PeerLog(i, row) =>
      && s.primary.Some? && i != s.primary.value && i in s.alive && i < |s.nodes| && row in s.flight
      && i !in s.flight[row].applied + s.flight[row].failed
      && row !in s.nodes[i].pending && !s.nodes[i].saving
    case PeerApply(i, row) =>
      i in s.alive && i < |s.nodes| && Some(i) != s.primary && row in s.nodes[i].pending
    case PeerFail(i, row) =>
      && s.primary.Some? && i != s.primary.value && i < |s.nodes| && row in s.flight
      && i !in s.flight[row].applied + s.flight[row].failed && row !in s.nodes[i].pending
    case PrimaryLog(row) =>
      && s.primary.Some? && s.primary.value < |s.nodes| && row in s.flight && Joined(s, row)
      && row !in s.nodes[s.primary.value].pending && !s.nodes[s.primary.value].saving
    case Commit(row) =>
      && s.primary.Some? && s.primary.value < |s.nodes| && row in s.flight
      && row in s.nodes[s.primary.value].pending
    case Save(i) => // the condition on runs: no operation is between its log step and its apply step
      i in s.alive && i < |s.nodes| && !s.nodes[i].saving && s.nodes[i].pending == map[]
    case Truncate(i) =>
      i in s.alive && i < |s.nodes| && s.nodes[i].saving
    case Crash(i) =>
      i in s.alive && i < |s.nodes|
    case LateLog(i, op) => // a call of a dead primary that arrives before the next appointment
      && s.primary == None && op in s.orphans && i in s.alive && i < |s.nodes|
      && op.row !in s.nodes[i].pending && !s.nodes[i].saving
    case Appoint(i) => // any node that is alive; the calls of the dead primary have settled
      && s.primary == None && i in s.alive && i < |s.nodes|
      && forall k: nat :: k in s.alive && k < |s.nodes| ==> s.nodes[k].pending == map[]
    case Rejoin(i, j, puts) => // the peer streams its cells; what it streams while it is written to is arbitrary
      && i < |s.nodes| && j < |s.nodes| && i !in s.alive && j in s.alive
      && (if Quiet(s, j) then Enumerates(puts, s.nodes[j].mem) else forall k :: 0 <= k < |puts| ==> puts[k].Put?)
    case StartAlone(i) => // no peer answers
      i < |s.nodes| && i !in s.alive
  }

  /** No write is under way. */
  predicate Quiet(s: System, j: nat) {
    j < |s.nodes| && s.flight == map[] && s.nodes[j].pending == map[]
  }

  function SetNode(s: System, i: nat, n: Node): System
    requires i < |s.nodes|
  {
    s.(nodes := s.nodes[i := n])
  }

  ghost function Next(s: System, step: Step): System
    requires Enabled(s, step)
  {
    match step
    case Begin(op) => s.(flight := s.flight[op.row := Flight(op, {}, {})])
    case BeginCPut(row, col, v1, v2) =>
      var p := s.primary.value;
      var n := s.nodes[p].(mem := TouchRow(s.nodes[p].mem, row));
      SetNode(s, p, n).(flight := s.flight[row := Flight(Put(row, col, v2), {}, {})])
    case PeerLog(i, row) => SetNode(s, i, LogOp(s.nodes[i], s.flight[row].op))
    case PeerApply(i, row) =>
      var s' := SetNode(s, i, ApplyPending(s.nodes[i], row));
      if row in s.flight then s'.(flight := s.flight[row := s.flight[row].(applied := s.flight[row].applied + {i})])
      else s'
    case PeerFail(i, row) =>
      s.(flight := s.flight[row := s.flight[row].(failed := s.flight[row].failed + {i})], current := s.current - {i})
    case PrimaryLog(row) => SetNode(s, s.primary.value, LogOp(s.nodes[s.primary.value], s.flight[row].op))
    case Commit(row) =>
      var op := s.flight[row].op;
      SetNode(s, s.primary.value, ApplyPending(s.nodes[s.primary.value], row))
      .(flight := s.flight - {row}, acked := s.acked + [op], since := s.since + [op],
        orphans := set o | o in s.orphans && !Touches(o, op.row, op.col))
    case Save(i) => SetNode(s, i, SaveDb(s.nodes[i]))
    case Truncate(i) => SetNode(s, i, TruncateLog(s.nodes[i]))
    case Crash(i) =>
      var s' := SetNode(s, i, Down(s.nodes[i])).(alive := s.alive - {i}, current := s.current - {i});
      if s.primary == Some(i) then
        s'.(primary := None, flight := map[], orphans := s.orphans + set r | r in s.flight :: s.flight[r].op)
      else s'
    case LateLog(i, op) => SetNode(s, i, LogOp(s.nodes[i], op))
    case Appoint(i) =>
      if HoldsLine(s, i) then s.(primary := Some(i), current := s.current + {i})
      else s.(primary := Some(i), base := s.nodes[i].mem, since := [], current := {i}, orphans := {})
    case Rejoin(i, j, puts) =>
      var n := Restart(s.nodes[i], puts);
      SetNode(s, i, n).(alive := s.alive + {i},
                        current := if j in s.current && Quiet(s, j) && SameCells(n.mem, s.nodes[j].mem)
                                   then s.current + {i} else s.current)
    case StartAlone(i) => SetNode(s, i, Restart(s.nodes[i], [])).(alive := s.alive + {i})
  }

  /** What the acknowledged operations make of the tablet the line started from. */
  function Committed(s: System): Tablet {
    Replay(s.base, s.since)
  }

  /** A value a current node may hold in a cell no delivery in flight has reached: the committed one, or that
      of an operation whose primary crashed before acknowledging it. */
  ghost predicate Settled(s: System, row: string, col: string, v: Option<string>) {
    || v == Cell(Committed(s), row, col)
    || exists o :: o in s.orphans && Touches(o, row, col) && v == Effect(o)
  }

  /** The node holds what its line of primaries has made, in every cell. */
  ghost predicate HoldsLine(s: System, i: nat) {
    i < |s.nodes| && forall r, c :: Settled(s, r, c, Cell(s.nodes[i].mem, r, c))
  }

  ghost predicate Init(s: System) {
    && |s.nodes| > 0 && s.primary == None && s.flight == map[] && s.acked == s.since == [] && s.orphans == {}
    && (forall i: nat :: i in s.alive <==> i < |s.nodes|) && s.current == s.alive
    && forall i :: 0 <= i < |s.nodes| ==>
         s.nodes[i] == Node(s.base, DropEmptyRows(s.base), [], map[], false, false, s.base, [])
  }

  ghost predicate ValidRun(s: System, steps: seq<Step>)
    decreases |steps|
  {
    steps == [] || (Enabled(s, steps[0]) && ValidRun(Next(s, steps[0]), steps[1..]))
  }

  ghost function Final(s: System, steps: seq<Step>): System
    requires ValidRun(s, steps)
    decreases |steps|
  {
    if steps == [] then s else Final(Next(s, steps[0]), steps[1..])
  }

  // ---- the invariant ----

  // The operation in flight on the cell has been applied at node i.
  predicate Reached(s: System, i: nat, row: string, col: string) {
    row in s.flight && s.flight[row].op.col == col && i in s.flight[row].applied
  }

  ghost predicate CellOk(s: System, i: nat, row: string, col: string)
    requires i < |s.nodes|
  {
    var v := Cell(s.nodes[i].mem, row, col);
    if Reached(s, i, row, col) then v == Effect(s.flight[row].op) else Settled(s, row, col, v)
  }

  ghost predicate Agree(s: System) {
    forall i: nat, r, c :: i in s.current && i < |s.nodes| ==> CellOk(s, i, r, c)
  }

  ghost predicate Shape(s: System) {
    && s.current <= s.alive
    && (forall i: nat :: i in s.alive ==> i < |s.nodes|)
    && (s.primary.Some? ==> s.primary.value in s.current)
    && (s.primary == None ==> s.flight == map[])
    && forall r :: r in s.flight ==>
         && s.flight[r].op.row == r
         && s.primary.value !in s.flight[r].applied
         && s.flight[r].failed !! s.current
  }

  ghost predicate PendingOk(s: System, i: nat, row: string)
    requires i < |s.nodes| && row in s.nodes[i].pending
  {
    var op := s.nodes[i].pending[row];
    && op.row == row
    && (if s.primary.Some?
        then row in s.flight && s.flight[row].op == op && i !in s.flight[row].applied + s.flight[row].failed
             && (i == s.primary.value ==> Joined(s, row))
        else op in s.orphans)
  }

  ghost predicate Pending(s: System) {
    forall i: nat, r :: i in s.alive && i < |s.nodes| && r in s.nodes[i].pending ==> PendingOk(s, i, r)
  }

  ghost predicate DiskOk(n: Node) {
    && RowsMatch(n) && DropEmptyRows(n.db) == n.db
    && (n.saving ==> n.pending == map[] && SameCells(n.db, n.mem))
    && (!n.unsaved ==> Recoverable(n))
    && Traced(n) && (n.unsaved ==> Tail(n))
  }

  ghost predicate Disks(s: System) {
    forall i: nat :: i in s.alive && i < |s.nodes| ==> DiskOk(s.nodes[i])
  }

  // A node that is down keeps its files.
  ghost predicate DownOk(s: System) {
    forall i: nat :: i < |s.nodes| && i !in s.alive ==>
      s.nodes[i].pending == map[] && !s.nodes[i].saving && DropEmptyRows(s.nodes[i].db) == s.nodes[i].db
  }

  ghost predicate Inv(s: System) {
    Shape(s) && Pending(s) && Agree(s) && Disks(s) && DownOk(s)
  }

  // ---- every step keeps it ----

  lemma CellFrame(s: System, s': System, i: nat, row: string, col: string)
    requires i < |s.nodes| == |s'.nodes| && CellOk(s, i, row, col)
    requires Cell(s'.nodes[i].mem, row, col) == Cell(s.nodes[i].mem, row, col)
    requires Committed(s') == Committed(s) && s.orphans <= s'.orphans
    requires Reached(s, i, row, col) == Reached(s', i, row, col)
    requires Reached(s, i, row, col) ==> s'.flight[row].op == s.flight[row].op
    ensures CellOk(s', i, row, col)
  {
  }

  lemma BeginKeeps(s: System, op: Op)
    requires Inv(s) && Enabled(s, Begin(op))
    ensures Inv(Next(s, Begin(op)))
  {
    var s' := Next(s, Begin(op));
    forall i: nat, r, c | i in s'.current && i < |s'.nodes| ensures CellOk(s', i, r, c) {
      CellFrame(s, s', i, r, c);
    }
    forall i: nat, r | i in s'.alive && i < |s'.nodes| && r in s'.nodes[i].pending ensures PendingOk(s', i, r) {
      assert PendingOk(s, i, r);
    }
  }

  lemma BeginCPutKeeps(s: System, row: string, col: string, v1: string, v2: string)
    requires Inv(s) && Enabled(s, BeginCPut(row, col, v1, v2))
    ensures Inv(Next(s, BeginCPut(row, col, v1, v2)))
  {
    var s' := Next(s, BeginCPut(row, col, v1, v2));
    var p := s.primary.value;
    TouchRowKeepsCells(s.nodes[p].mem, row);
    forall i: nat, r, c | i in s'.current && i < |s'.nodes| ensures CellOk(s', i, r, c) {
      CellFrame(s, s', i, r, c);
    }
    forall i: nat, r | i in s'.alive && i < |s'.nodes| && r in s'.nodes[i].pending ensures PendingOk(s', i, r) {
      assert PendingOk(s, i, r);
    }
    TouchRowDisk(s.nodes[p], row);
  }

  lemma TouchRowDisk(n: Node, row: string)
    requires DiskOk(n)
    ensures DiskOk(n.(mem := TouchRow(n.mem, row)))
  {
    var n' := n.(mem := TouchRow(n.mem, row));
    TouchRowKeepsCells(n.mem, row);
    forall r, c ensures Cell(Replay(n'.origin, n'.history), r, c) == PendingCell(n', r, c) {
      assert Cell(Replay(n.origin, n.history), r, c) == PendingCell(n, r, c);
    }
    if !n.unsaved {
      forall r, c ensures Cell(Recover(n'), r, c) == PendingCell(n', r, c) {
        assert Cell(Recover(n), r, c) == PendingCell(n, r, c);
      }
    }
  }

  lemma LogOpDisk(n: Node, op: Op)
    requires DiskOk(n) && op.row !in n.pending && !n.saving
    ensures DiskOk(LogOp(n, op))
  {
    hide Recoverable, Traced, PendingCell;
    LogOpTraced(n, op);
    if !n.unsaved {
      LogOpRecoverable(n, op);
    }
  }

  lemma ApplyDisk(n: Node, row: string)
    requires DiskOk(n) && row in n.pending
    ensures DiskOk(ApplyPending(n, row))
  {
    hide Recoverable, Traced, PendingCell;
    ApplyPendingTraced(n, row);
    if !n.unsaved {
      ApplyPendingRecoverable(n, row);
    }
  }

  lemma SaveDisk(n: Node)
    requires DiskOk(n) && n.pending == map[]
    ensures DiskOk(SaveDb(n))
  {
    DropEmptyRowsKeepsCells(n.mem);
    if !n.unsaved {
      SaveDbRecoverable(n);
    }
  }

  lemma TruncateDisk(n: Node)
    requires DiskOk(n) && n.saving
    ensures DiskOk(TruncateLog(n))
  {
    TruncateLogRecoverable(n);
    forall r, c ensures Cell(Replay(n.origin, n.history), r, c) == PendingCell(TruncateLog(n), r, c) {
      assert Cell(Replay(n.origin, n.history), r, c) == PendingCell(n, r, c);
    }
  }

  lemma LogKeeps(s: System, i: nat, row: string, step: Step)
    requires Inv(s) && Enabled(s, step) && i < |s.nodes|
    requires step == PeerLog(i, row) || (step == PrimaryLog(row) && s.primary == Some(i))
    ensures Inv(Next(s, step))
  {
    hide Settled, Recoverable, Traced;
    var s' := Next(s, step);
    LogOpDisk(s.nodes[i], s.flight[row].op);
    forall k: nat, r, c | k in s'.current && k < |s'.nodes| ensures CellOk(s', k, r, c) {
      CellFrame(s, s', k, r, c);
    }
    forall k: nat, r | k in s'.alive && k < |s'.nodes| && r in s'.nodes[k].pending ensures PendingOk(s', k, r) {
      if !(k == i && r == row) {
        assert PendingOk(s, k, r);
      }
    }
  }

  lemma PeerFailKeeps(s: System, i: nat, row: string)
    requires Inv(s) && Enabled(s, PeerFail(i, row))
    ensures Inv(Next(s, PeerFail(i, row)))
  {
    hide Settled, Recoverable, Traced;
    var s' := Next(s, PeerFail(i, row));
    forall k: nat, r, c | k in s'.current && k < |s'.nodes| ensures CellOk(s', k, r, c) {
      CellFrame(s, s', k, r, c);
    }
    forall k: nat, r | k in s'.alive && k < |s'.nodes| && r in s'.nodes[k].pending ensures PendingOk(s', k, r) {
      assert PendingOk(s, k, r);
    }
  }

  lemma PeerApplyAgrees(s: System, i: nat, row: string)
    requires Inv(s) && Enabled(s, PeerApply(i, row))
    ensures Agree(Next(s, PeerApply(i, row)))
  {
    var s' := Next(s, PeerApply(i, row));
    var op := s.nodes[i].pending[row];
    assert PendingOk(s, i, row);
    forall k: nat, r, c | k in s'.current && k < |s'.nodes| ensures CellOk(s', k, r, c) {
      ApplyCell(s.nodes[i].mem, op, r, c);
      if k != i || !Touches(op, r, c) {
        CellFrame(s, s', k, r, c);
      }
    }
  }

  lemma PeerApplyPending(s: System, i: nat, row: string)
    requires Inv(s) && Enabled(s, PeerApply(i, row))
    ensures Pending(Next(s, PeerApply(i, row)))
    ensures s.primary.Some? ==> row in s.flight && i !in s.flight[row].failed
  {
    hide Agree, DiskOk, Apply;
    var s' := Next(s, PeerApply(i, row));
    assert PendingOk(s, i, row);
    forall k: nat, r | k in s'.alive && k < |s'.nodes| && r in s'.nodes[k].pending ensures PendingOk(s', k, r) {
      assert PendingOk(s, k, r);
    }
  }

  lemma PeerApplyKeeps(s: System, i: nat, row: string)
    requires Inv(s) && Enabled(s, PeerApply(i, row))
    ensures Inv(Next(s, PeerApply(i, row)))
  {
    hide Agree, DiskOk, Apply, Joined, Pending, PendingOk;
    PeerApplyAgrees(s, i, row);
    PeerApplyPending(s, i, row);
    ApplyDisk(s.nodes[i], row);
  }

  // When the primary applies, every current peer already has.
  lemma CommitAgrees(s: System, row: string)
    requires Inv(s) && Enabled(s, Commit(row))
    ensures Agree(Next(s, Commit(row)))
  {
    var s' := Next(s, Commit(row));
    var p, op := s.primary.value, s.flight[row].op;
    assert PendingOk(s, p, row);
    forall k: nat, r, c | k in s'.current && k < |s'.nodes| ensures CellOk(s', k, r, c) {
      assert CellOk(s, k, r, c);
      ApplyCell(s.nodes[p].mem, op, r, c);
      ApplyCell(Committed(s), op, r, c);
      if Touches(op, r, c) {
        assert k != p ==> k in s.flight[row].applied + s.flight[row].failed;
      } else if !Reached(s, k, r, c) {
        var v := Cell(s.nodes[k].mem, r, c);
        if v != Cell(Committed(s), r, c) {
          var o :| o in s.orphans && Touches(o, r, c) && v == Effect(o);
          assert o in s'.orphans;
        }
      }
    }
  }

  lemma CommitKeeps(s: System, row: string)
    requires Inv(s) && Enabled(s, Commit(row))
    ensures Inv(Next(s, Commit(row)))
  {
    hide Agree, DiskOk;
    var s' := Next(s, Commit(row));
    var p := s.primary.value;
    CommitAgrees(s, row);
    ApplyDisk(s.nodes[p], row);
    assert PendingOk(s, p, row);
    forall k: nat, r | k in s'.alive && k < |s'.nodes| && r in s'.nodes[k].pending ensures PendingOk(s', k, r) {
      assert PendingOk(s, k, r);
    }
  }

  lemma CheckpointKeeps(s: System, i: nat, step: Step)
    requires Inv(s) && Enabled(s, step) && (step == Save(i) || step == Truncate(i))
    ensures Inv(Next(s, step))
  {
    hide Settled, DiskOk;
    var s' := Next(s, step);
    if step == Save(i) {
      SaveDisk(s.nodes[i]);
    } else {
      TruncateDisk(s.nodes[i]);
    }
    forall k: nat, r, c | k in s'.current && k < |s'.nodes| ensures CellOk(s', k, r, c) {
      CellFrame(s, s', k, r, c);
    }
    forall k: nat, r | k in s'.alive && k < |s'.nodes| && r in s'.nodes[k].pending ensures PendingOk(s', k, r) {
      assert PendingOk(s, k, r);
    }
  }

  lemma CrashAgrees(s: System, i: nat)
    requires Inv(s) && Enabled(s, Crash(i))
    ensures Agree(Next(s, Crash(i)))
  {
    var s' := Next(s, Crash(i));
    forall k: nat, r, c | k in s'.current && k < |s'.nodes| ensures CellOk(s', k, r, c) {
      assert CellOk(s, k, r, c);
      if s.primary == Some(i) && Reached(s, k, r, c) {
        assert s.flight[r].op in s'.orphans && Touches(s.flight[r].op, r, c);
      } else {
        CellFrame(s, s', k, r, c);
      }
    }
  }

  lemma CrashKeeps(s: System, i: nat)
    requires Inv(s) && Enabled(s, Crash(i))
    ensures Inv(Next(s, Crash(i)))
  {
    hide Agree, Traced, Recoverable, Tail;
    var s' := Next(s, Crash(i));
    CrashAgrees(s, i);
    forall k: nat, r | k in s'.alive && k < |s'.nodes| && r in s'.nodes[k].pending ensures PendingOk(s', k, r) {
      assert PendingOk(s, k, r);
    }
  }

  lemma LateLogKeeps(s: System, i: nat, op: Op)
    requires Inv(s) && Enabled(s, LateLog(i, op))
    ensures Inv(Next(s, LateLog(i, op)))
  {
    hide Settled, Recoverable, Traced;
    var s' := Next(s, LateLog(i, op));
    LogOpDisk(s.nodes[i], op);
    forall k: nat, r, c | k in s'.current && k < |s'.nodes| ensures CellOk(s', k, r, c) {
      CellFrame(s, s', k, r, c);
    }
    forall k: nat, r | k in s'.alive && k < |s'.nodes| && r in s'.nodes[k].pending ensures PendingOk(s', k, r) {
      if !(k == i && r == op.row) {
        assert PendingOk(s, k, r);
      }
    }
  }

  lemma AppointKeeps(s: System, i: nat)
    requires Inv(s) && Enabled(s, Appoint(i))
    ensures Inv(Next(s, Appoint(i)))
  {
    var s' := Next(s, Appoint(i));
    forall k: nat, r, c | k in s'.current && k < |s'.nodes| ensures CellOk(s', k, r, c) {
      if !HoldsLine(s, i) {
        assert Replay(s'.base, []) == s'.base;
      } else if k != i {
        CellFrame(s, s', k, r, c);
      } else {
        assert Settled(s, r, c, Cell(s.nodes[i].mem, r, c));
      }
    }
  }

  lemma RestartDisk(n: Node, puts: seq<Op>)
    requires n.pending == map[] && DropEmptyRows(n.db) == n.db
    ensures DiskOk(Restart(n, puts))
  {
    var n' := Restart(n, puts);
    assert Replay(n'.origin, []) == n'.mem;
    assert n'.log[|n'.log|..] == [];
  }

  lemma RejoinAgrees(s: System, i: nat, j: nat, puts: seq<Op>)
    requires Agree(s) && Shape(s) && Enabled(s, Rejoin(i, j, puts))
    ensures Agree(Next(s, Rejoin(i, j, puts)))
  {
    hide Replay, Restart;
    var s' := Next(s, Rejoin(i, j, puts));
    forall k: nat, r, c | k in s'.current && k < |s'.nodes| ensures CellOk(s', k, r, c) {
      if k == i {
        assert CellOk(s, j, r, c);
        assert Cell(s'.nodes[i].mem, r, c) == Cell(s.nodes[j].mem, r, c);
      } else {
        CellFrame(s, s', k, r, c);
      }
    }
  }

  lemma RejoinKeeps(s: System, i: nat, j: nat, puts: seq<Op>)
    requires Inv(s) && Enabled(s, Rejoin(i, j, puts))
    ensures Inv(Next(s, Rejoin(i, j, puts)))
  {
    hide Agree, DiskOk, SameCells, Enumerates;
    var s' := Next(s, Rejoin(i, j, puts));
    RejoinAgrees(s, i, j, puts);
    RestartDisk(s.nodes[i], puts);
    forall k: nat, r | k in s'.alive && k < |s'.nodes| && r in s'.nodes[k].pending ensures PendingOk(s', k, r) {
      assert PendingOk(s, k, r);
    }
  }

  lemma StartAloneKeeps(s: System, i: nat)
    requires Inv(s) && Enabled(s, StartAlone(i))
    ensures Inv(Next(s, StartAlone(i)))
  {
    hide DiskOk, Settled;
    var s' := Next(s, StartAlone(i));
    RestartDisk(s.nodes[i], []);
    forall k: nat, r, c | k in s'.current && k < |s'.nodes| ensures CellOk(s', k, r, c) {
      CellFrame(s, s', k, r, c);
    }
    forall k: nat, r | k in s'.alive && k < |s'.nodes| && r in s'.nodes[k].pending ensures PendingOk(s', k, r) {
      assert PendingOk(s, k, r);
    }
  }

  lemma InitInv(s: System)
    requires Init(s)
    ensures Inv(s)
  {
    DropEmptyRowsKeepsCells(s.base);
    assert Replay(s.base, []) == s.base;
    forall i: nat, r, c | i in s.current && i < |s.nodes| ensures CellOk(s, i, r, c) {
      assert s.nodes[i].mem == s.base;
    }
    forall i: nat | i < |s.nodes| ensures DiskOk(s.nodes[i]) {
      assert Recover(s.nodes[i]) == s.nodes[i].db == DropEmptyRows(s.base);
    }
  }

  /** Every step keeps the invariant. */
  lemma NextInv(s: System, step: Step)
    requires Inv(s) && Enabled(s, step)
    ensures Inv(Next(s, step))
  {
    hide Inv, Enabled, Next;
    match step
    case Begin(op) => BeginKeeps(s, op);
    case BeginCPut(row, col, v1, v2) => BeginCPutKeeps(s, row, col, v1, v2);
    case PeerLog(i, row) => InRange(s, step); LogKeeps(s, i, row, step);
    case PeerApply(i, row) => PeerApplyKeeps(s, i, row);
    case PeerFail(i, row) => PeerFailKeeps(s, i, row);
    case PrimaryLog(row) => InRange(s, step); LogKeeps(s, s.primary.value, row, step);
    case Commit(row) => CommitKeeps(s, row);
    case Save(i) => CheckpointKeeps(s, i, step);
    case Truncate(i) => CheckpointKeeps(s, i, step);
    case Crash(i) => CrashKeeps(s, i);
    case LateLog(i, op) => LateLogKeeps(s, i, op);
    case Appoint(i) => AppointKeeps(s, i);
    case Rejoin(i, j, puts) => RejoinKeeps(s, i, j, puts);
    case StartAlone(i) => StartAloneKeeps(s, i);
  }

  lemma InRange(s: System, step: Step)
    requires Enabled(s, step)
    ensures step.PeerLog? ==> step.i < |s.nodes|
    ensures step.PrimaryLog? ==> s.primary.Some? && s.primary.value < |s.nodes|
  {
  }

  /** Every state of every run satisfies the invariant. */
  lemma {:induction false} RunInv(s: System, steps: seq<Step>)
    requires Inv(s) && ValidRun(s, steps)
    ensures Inv(Final(s, steps))
    decreases |steps|
  {
    if steps == [] {
    } else {
      NextInv(s, steps[0]);
      RunInv(Next(s, steps[0]), steps[1..]);
    }
  }
}
