// What the replication invariant gives: for every run of the partition.
module Guarantees {
  import opened Tablets
  import opened Disk
  import opened Durable
  import opened Replication

  ghost predicate SameRow(t1: Tablet, t2: Tablet, row: string) {
    forall c :: Cell(t1, row, c) == Cell(t2, row, c)
  }

  ghost predicate OrphanOn(s: System, row: string, col: string) {
    exists o :: o in s.orphans && Touches(o, row, col)
  }

  // A failed call, a crash, or something that only follows one.
  predicate Fault(step: Step) {
    step.PeerFail? || step.Crash? || step.LateLog? || step.Rejoin? || step.StartAlone?
  }

  /** A run without failed calls, crashes or restarts. */
  predicate FaultFree(steps: seq<Step>) {
    forall k :: 0 <= k < |steps| ==> !Fault(steps[k])
  }

  predicate Untruncated(steps: seq<Step>) {
    forall k :: 0 <= k < |steps| ==> !steps[k].Truncate?
  }

  // ---- replica agreement ----

  /** With faults of any kind: current nodes hold the committed row, or the row as the operation in flight
      leaves it, on every row free of orphans. */
  lemma CurrentRow(s: System, i: nat, row: string)
    requires Inv(s) && i in s.current && forall c :: !OrphanOn(s, row, c)
    ensures i < |s.nodes|
    ensures || SameRow(s.nodes[i].mem, Committed(s), row)
            || (row in s.flight && SameRow(s.nodes[i].mem, Apply(Committed(s), s.flight[row].op), row))
    ensures row !in s.flight ==> SameRow(s.nodes[i].mem, Committed(s), row)
  {
    assert i in s.alive;
    forall c ensures CellOk(s, i, row, c) && !OrphanOn(s, row, c) {
    }
    if row in s.flight && i in s.flight[row].applied {
      var op := s.flight[row].op;
      forall c ensures Cell(s.nodes[i].mem, row, c) == Cell(Apply(Committed(s), op), row, c) {
        assert CellOk(s, i, row, c);
        ApplyCell(Committed(s), op, row, c);
      }
    } else {
      forall c ensures Cell(s.nodes[i].mem, row, c) == Cell(Committed(s), row, c) {
        assert CellOk(s, i, row, c);
      }
    }
  }

  ghost predicate Faultless(s: System) {
    && s.orphans == {} && s.since == s.acked && (forall i: nat :: i in s.current <==> i < |s.nodes|)
    && forall i: nat :: i < |s.nodes| ==> !s.nodes[i].unsaved
  }

  lemma {:induction false} FaultFreeRun(s: System, steps: seq<Step>)
    requires Inv(s) && ValidRun(s, steps) && FaultFree(steps) && Faultless(s)
    ensures var s' := Final(s, steps);
            Inv(s') && Faultless(s') && |s'.nodes| == |s.nodes| && s'.base == s.base
    decreases |steps|
  {
    hide Inv, Faultless, Enabled, Next;
    if steps == [] {
    } else {
      NextInv(s, steps[0]);
      FaultFreeStep(s, steps[0]);
      FaultFreeRun(Next(s, steps[0]), steps[1..]);
    }
  }

  lemma FaultFreeStep(s: System, step: Step)
    requires Inv(s) && Faultless(s) && Enabled(s, step) && !Fault(step)
    ensures Faultless(Next(s, step)) && |Next(s, step).nodes| == |s.nodes| && Next(s, step).base == s.base
  {
    hide Disks, DownOk, Pending, Agree, HoldsLine, Apply;
    if step.Appoint? {
      CurrentHoldsLine(s, step.i);
    }
    assert Next(s, step).orphans == {};
  }

  // With no operation in flight a current node holds what the line has made.
  lemma CurrentHoldsLine(s: System, i: nat)
    requires Shape(s) && Agree(s) && i in s.current && s.primary == None
    ensures HoldsLine(s, i)
  {
    assert i in s.alive;
    forall r, c ensures Settled(s, r, c, Cell(s.nodes[i].mem, r, c)) {
      assert CellOk(s, i, r, c);
    }
  }

  /** Replica agreement: under any interleaving of puts, conditional puts, deletes and checkpoints, every
      node holds the committed row when its lock is free, and otherwise the row before or after the
      operation that holds it. */
  lemma ReplicaAgreement(s0: System, steps: seq<Step>, i: nat, row: string)
    requires Init(s0) && ValidRun(s0, steps) && FaultFree(steps) && i < |s0.nodes|
    ensures var s := Final(s0, steps);
            && i < |s.nodes|
            && (row !in s.flight ==> SameRow(s.nodes[i].mem, Committed(s), row))
            && (row in s.flight ==> SameRow(s.nodes[i].mem, Committed(s), row)
                                    || SameRow(s.nodes[i].mem, Apply(Committed(s), s.flight[row].op), row))
  {
    hide Inv, Init, ValidRun, Final, SameRow;
    StartFaultless(s0);
    FaultFreeRun(s0, steps);
    CurrentRow(Final(s0, steps), i, row);
  }

  lemma StartFaultless(s0: System)
    requires Init(s0)
    ensures Inv(s0) && Faultless(s0)
  {
    InitInv(s0);
  }

  /** Fresh reads: any node answers with the committed value of the cell, or with what the operation in flight puts
      there; that there is no such cell where there is none. */
  lemma FreshReads(s0: System, steps: seq<Step>, i: nat, row: string, col: string)
    requires Init(s0) && ValidRun(s0, steps) && FaultFree(steps) && i < |s0.nodes|
    ensures var s := Final(s0, steps);
            && i < |s.nodes|
            && var reply := Get(s.nodes[i].mem, row, col);
            && (reply.code == OK || reply == GetReply(NOT_FOUND, ""))
            && var v := if reply.code == OK then Some(reply.value) else None;
            || v == Cell(Committed(s), row, col)
            || (row in s.flight && s.flight[row].op.col == col && v == Effect(s.flight[row].op))
  {
    ReplicaAgreement(s0, steps, i, row);
    FlightRows(s0, steps);
    var s := Final(s0, steps);
    var t := s.nodes[i].mem;
    GetIsCell(t, row, col);
    hide Get, Committed, Final, ValidRun, Init;
    if !SameRow(t, Committed(s), row) {
      ApplyCell(Committed(s), s.flight[row].op, row, col);
      assert Cell(t, row, col) == Cell(Apply(Committed(s), s.flight[row].op), row, col);
    }
  }

  lemma FlightRows(s0: System, steps: seq<Step>)
    requires Init(s0) && ValidRun(s0, steps)
    ensures forall r :: r in Final(s0, steps).flight ==> Final(s0, steps).flight[r].op.row == r
  {
    hide ValidRun, Final;
    InitInv(s0);
    RunInv(s0, steps);
  }

  // ---- acknowledged operations survive ----

  lemma {:induction false} AckedGrows(s: System, steps: seq<Step>)
    requires ValidRun(s, steps)
    ensures s.acked <= Final(s, steps).acked
    decreases |steps|
  {
    if steps == [] {
    } else {
      assert s.acked <= Next(s, steps[0]).acked;
      AckedGrows(Next(s, steps[0]), steps[1..]);
    }
  }

  /** Every node appointed in the run holds what the line of primaries has made. */
  ghost predicate Unbroken(s: System, steps: seq<Step>)
    requires ValidRun(s, steps)
    decreases |steps|
  {
    steps == [] || ((steps[0].Appoint? ==> HoldsLine(s, steps[0].i)) && Unbroken(Next(s, steps[0]), steps[1..]))
  }

  lemma {:induction false} LineGoesOn(s: System, steps: seq<Step>)
    requires ValidRun(s, steps) && Unbroken(s, steps)
    ensures s.since <= Final(s, steps).since
    ensures s.since == s.acked ==> Final(s, steps).since == Final(s, steps).acked
    decreases |steps|
  {
    if steps == [] {
    } else {
      hide HoldsLine, Apply;
      var s' := Next(s, steps[0]);
      assert s.since <= s'.since && (s.since == s.acked ==> s'.since == s'.acked);
      LineGoesOn(s', steps[1..]);
    }
  }

  /** The value comes from the k-th acknowledged operation of the line or a later one on its cell, from an
      operation in flight, or from one whose primary crashed before acknowledging it: never from anything older. */
  ghost predicate NotOlderThan(s: System, k: nat, v: Option<string>)
    requires k < |s.since|
  {
    var op := s.since[k];
    || (exists m :: k <= m < |s.since| && Touches(s.since[m], op.row, op.col) && v == Effect(s.since[m]))
    || (op.row in s.flight && s.flight[op.row].op.col == op.col && v == Effect(s.flight[op.row].op))
    || (exists o :: o in s.orphans && Touches(o, op.row, op.col) && v == Effect(o))
  }

  lemma AckedIsHeld(s: System, k: nat, i: nat)
    requires Inv(s) && k < |s.since| && i in s.current
    ensures i < |s.nodes| && NotOlderThan(s, k, Cell(s.nodes[i].mem, s.since[k].row, s.since[k].col))
  {
    var op := s.since[k];
    assert i in s.alive;
    assert CellOk(s, i, op.row, op.col);
    ReplayCell(s.base, s.since, op.row, op.col);
    var m := LastTouch(s.since, op.row, op.col);
    assert m < k ==> !Touches(s.since[k], op.row, op.col);
    assert k <= m && Touches(s.since[m], op.row, op.col);
  }

  /** No acknowledged write is lost: once acknowledged, and through any later crashes, appointments, failed
      calls and restarts, no current node goes back behind it, as long as the nodes appointed hold what the line
      of primaries has made. AppointmentLosesIff says exactly when one does not. */
  lemma NoAcknowledgedWriteLost(s0: System, before: seq<Step>, after: seq<Step>, k: nat, i: nat)
    requires Init(s0) && ValidRun(s0, before) && ValidRun(Final(s0, before), after)
    requires Unbroken(Final(s0, before), after)
    requires k < |Final(s0, before).since| && i in Final(Final(s0, before), after).current
    ensures var s1, s2 := Final(s0, before), Final(Final(s0, before), after);
            && k < |s2.since| && s2.since[k] == s1.since[k] && i < |s2.nodes|
            && NotOlderThan(s2, k, Cell(s2.nodes[i].mem, s1.since[k].row, s1.since[k].col))
  {
    hide Inv, Init, NotOlderThan, Unbroken;
    var s1 := Final(s0, before);
    InitInv(s0);
    RunInv(s0, before);
    RunInv(s1, after);
    LineGoesOn(s1, after);
    AckedIsHeld(Final(s1, after), k, i);
  }

  /** When no appointment breaks the line, the line has acknowledged everything that was ever acknowledged. */
  lemma WholeLine(s0: System, steps: seq<Step>)
    requires Init(s0) && ValidRun(s0, steps) && Unbroken(s0, steps)
    ensures Final(s0, steps).since == Final(s0, steps).acked
  {
    LineGoesOn(s0, steps);
  }

  // ---- whom the master may appoint ----

  /** The effect of the last acknowledged operation of the line on a cell; what the line started from if none. */
  function LastAcknowledged(s: System, row: string, col: string): Option<string> {
    var m := LastTouch(s.since, row, col);
    if m < 0 then Cell(s.base, row, col) else Effect(s.since[m])
  }

  /** The node's last record on a cell left it with the value last acknowledged, or with that of an operation
      whose primary crashed before acknowledging it. */
  ghost predicate UpToDateOn(s: System, i: nat, row: string, col: string)
    requires i < |s.nodes|
  {
    || LastRecord(s.nodes[i], row, col) == LastAcknowledged(s, row, col)
    || exists o :: o in s.orphans && Touches(o, row, col) && LastRecord(s.nodes[i], row, col) == Effect(o)
  }

  // In a reachable state a node that can be appointed holds the value of its last record.
  lemma AppointableHolds(s0: System, steps: seq<Step>, i: nat, row: string, col: string)
    requires Init(s0) && ValidRun(s0, steps) && Enabled(Final(s0, steps), Appoint(i))
    ensures var s := Final(s0, steps);
            && s.flight == map[] && i < |s.nodes|
            && Cell(s.nodes[i].mem, row, col) == LastRecord(s.nodes[i], row, col)
            && Cell(Committed(s), row, col) == LastAcknowledged(s, row, col)
  {
    hide Init, ValidRun, Final, LastRecord, Traced, PendingCell;
    var s := Final(s0, steps);
    InitInv(s0);
    RunInv(s0, steps);
    assert DiskOk(s.nodes[i]);
    LastRecordIsHeld(s.nodes[i], row, col);
    ReplayCell(s.base, s.since, row, col);
  }

  /** For whichever node that is alive the master appoints: it holds what the line of primaries has made exactly
      when its last record on every cell is up to date. Otherwise a new line starts from what it holds. */
  lemma AppointmentKeepsLineIff(s0: System, steps: seq<Step>, i: nat)
    requires Init(s0) && ValidRun(s0, steps) && Enabled(Final(s0, steps), Appoint(i))
    ensures var s := Final(s0, steps);
            && i < |s.nodes|
            && (HoldsLine(s, i) <==> forall r, c :: UpToDateOn(s, i, r, c))
            && (!HoldsLine(s, i) ==> Committed(Next(s, Appoint(i))) == s.nodes[i].mem)
  {
    hide Init, ValidRun, Final, LastRecord, LastAcknowledged, Committed;
    var s := Final(s0, steps);
    AppointableHolds(s0, steps, i, "", "");
    forall r, c ensures Settled(s, r, c, Cell(s.nodes[i].mem, r, c)) <==> UpToDateOn(s, i, r, c) {
      AppointableHolds(s0, steps, i, r, c);
    }
    EmptyLine(s, i);
  }

  lemma EmptyLine(s: System, i: nat)
    requires Enabled(s, Appoint(i))
    ensures !HoldsLine(s, i) ==> Committed(Next(s, Appoint(i))) == s.nodes[i].mem
  {
  }

  /** Acknowledged operations are lost by an appointment, stale nodes included, exactly when on the cell of one of
      them the node's last record is not up to date: then the new primary answers with an older value. */
  lemma AppointmentLosesIff(s0: System, steps: seq<Step>, i: nat)
    requires Init(s0) && ValidRun(s0, steps) && Enabled(Final(s0, steps), Appoint(i))
    ensures var s := Final(s0, steps);
            && i < |s.nodes|
            && ((forall k: nat :: k < |s.since| ==> NotOlderThan(s, k, Cell(s.nodes[i].mem, s.since[k].row, s.since[k].col)))
                <==> (forall k: nat :: k < |s.since| ==> UpToDateOn(s, i, s.since[k].row, s.since[k].col)))
  {
    hide Init, ValidRun, Final, LastRecord, NotOlderThan, UpToDateOn, Enabled;
    var s := Final(s0, steps);
    AppointableHolds(s0, steps, i, "", "");
    forall k: nat | k < |s.since|
      ensures UpToDateOn(s, i, s.since[k].row, s.since[k].col) ==>
              NotOlderThan(s, k, Cell(s.nodes[i].mem, s.since[k].row, s.since[k].col))
    {
      AppointableHolds(s0, steps, i, s.since[k].row, s.since[k].col);
      if UpToDateOn(s, i, s.since[k].row, s.since[k].col) {
        UpToDateIsNew(s, i, k);
      }
    }
    forall k: nat | k < |s.since|
      ensures var m := LastTouch(s.since, s.since[k].row, s.since[k].col);
              && 0 <= m && s.since[m].row == s.since[k].row && s.since[m].col == s.since[k].col
              && (NotOlderThan(s, m, Cell(s.nodes[i].mem, s.since[m].row, s.since[m].col)) ==>
                  UpToDateOn(s, i, s.since[k].row, s.since[k].col))
    {
      AppointableHolds(s0, steps, i, s.since[k].row, s.since[k].col);
      NewIsUpToDate(s, i, k);
    }
  }

  lemma UpToDateIsNew(s: System, i: nat, k: nat)
    requires i < |s.nodes| && k < |s.since|
    requires Cell(s.nodes[i].mem, s.since[k].row, s.since[k].col) == LastRecord(s.nodes[i], s.since[k].row, s.since[k].col)
    requires UpToDateOn(s, i, s.since[k].row, s.since[k].col)
    ensures NotOlderThan(s, k, Cell(s.nodes[i].mem, s.since[k].row, s.since[k].col))
  {
    hide LastRecord;
    var op := s.since[k];
    var m := LastTouch(s.since, op.row, op.col);
    assert m < k ==> !Touches(s.since[k], op.row, op.col);
  }

  lemma NewIsUpToDate(s: System, i: nat, k: nat)
    requires i < |s.nodes| && k < |s.since| && s.flight == map[]
    requires Cell(s.nodes[i].mem, s.since[k].row, s.since[k].col) == LastRecord(s.nodes[i], s.since[k].row, s.since[k].col)
    ensures var m := LastTouch(s.since, s.since[k].row, s.since[k].col);
            && 0 <= m && s.since[m].row == s.since[k].row && s.since[m].col == s.since[k].col
            && (NotOlderThan(s, m, Cell(s.nodes[i].mem, s.since[m].row, s.since[m].col)) ==>
                UpToDateOn(s, i, s.since[k].row, s.since[k].col))
  {
    hide LastRecord;
    var op := s.since[k];
    var m := LastTouch(s.since, op.row, op.col);
    assert m < k ==> !Touches(s.since[k], op.row, op.col);
  }

  /** When the primary crashes at any step, the survivors that are current hold the committed value of every
      cell, except cells with an operation in flight (or an orphan of an earlier crash). */
  lemma SurvivorsDifferOnlyInFlight(s0: System, steps: seq<Step>, p: nat, i: nat, row: string, col: string)
    requires Init(s0) && ValidRun(s0, steps)
    requires Final(s0, steps).primary == Some(p) && Enabled(Final(s0, steps), Crash(p))
    requires i in Next(Final(s0, steps), Crash(p)).current
    ensures var s := Final(s0, steps);
            var s' := Next(s, Crash(p));
            && s'.acked == s.acked && i < |s'.nodes|
            && (!(row in s.flight && s.flight[row].op.col == col) && !OrphanOn(s, row, col) ==>
                Cell(s'.nodes[i].mem, row, col) == Cell(Committed(s), row, col))
  {
    hide Init;
    var s := Final(s0, steps);
    InitInv(s0);
    RunInv(s0, steps);
    assert i in s.alive;
    assert CellOk(s, i, row, col);
  }

  // ---- recovery ----

  /** Crash recovery, from the bytes of the files: at every moment of every run a node that crashes rebuilds
      its memory plus the operations it had logged and not yet applied; a node that has rejoined and not yet
      checkpointed does so exactly when the cells it got from its peer are in its files or written over since. */
  lemma RecoveryFromFiles(s0: System, steps: seq<Step>, i: nat, puts: seq<Op>, extraSkip: bool)
    requires Init(s0) && ValidRun(s0, steps)
    requires i in Final(s0, steps).alive && i < |Final(s0, steps).nodes|
    requires Enumerates(puts, Final(s0, steps).nodes[i].db)
    requires AllOpsFit(puts) && AllOpsFit(Final(s0, steps).nodes[i].log)
    requires extraSkip ==> DeletesOnlyLast(Final(s0, steps).nodes[i].log)
    ensures var n := Final(s0, steps).nodes[i];
            var t := RecoverBytes(extraSkip, PrintTablet(puts), PrintLog(n.log));
            && t.Some? && (n.unsaved ==> Tail(n))
            && ((forall r, c :: Cell(t.value, r, c) == PendingCell(n, r, c)) <==> (n.unsaved ==> SyncedCellsOnDisk(n)))
  {
    hide Init, RecoverBytes, Recover, SyncedCellsOnDisk, Traced;
    var s := Final(s0, steps);
    InitInv(s0);
    RunInv(s0, steps);
    assert DiskOk(s.nodes[i]);
    RecoverFromBytes(s.nodes[i], puts, extraSkip);
    if s.nodes[i].unsaved {
      UnsavedRecoverableIff(s.nodes[i]);
    }
  }

  /** After any run without faults, with no write under way, all nodes recover the committed tablet. */
  lemma WholePartitionRestart(s0: System, steps: seq<Step>, i: nat)
    requires Init(s0) && ValidRun(s0, steps) && FaultFree(steps) && i < |s0.nodes|
    requires Final(s0, steps).flight == map[] && Final(s0, steps).primary.Some?
    ensures i < |Final(s0, steps).nodes|
    ensures SameCells(Recover(Final(s0, steps).nodes[i]), Committed(Final(s0, steps)))
  {
    hide Init;
    var s := Final(s0, steps);
    StartFaultless(s0);
    FaultFreeRun(s0, steps);
    var n := s.nodes[i];
    assert i in s.current && i in s.alive;
    assert forall r :: r in n.pending ==> r in s.flight;
    assert DiskOk(n);
    forall r, c ensures Cell(Recover(n), r, c) == Cell(Committed(s), r, c) {
      assert Cell(Recover(n), r, c) == PendingCell(n, r, c);
      assert CellOk(s, i, r, c);
    }
  }

  // ---- log agreement ----

  // What node i has logged on a row: the acknowledged operations, then the one in flight once it is logged.
  function LoggedOnRow(s: System, i: nat, row: string): seq<Op>
    requires i < |s.nodes|
  {
    RowOps(s.acked, row) +
    (if row in s.flight && (i in s.flight[row].applied || row in s.nodes[i].pending) then [s.flight[row].op] else [])
  }

  ghost predicate LogsAgree(s: System) {
    forall i: nat, r :: i < |s.nodes| ==> RowOps(s.nodes[i].history, r) == LoggedOnRow(s, i, r)
  }

  lemma LogsAgreeStep(s: System, step: Step)
    requires Inv(s) && Faultless(s) && LogsAgree(s) && Enabled(s, step)
    requires !Fault(step)
    ensures LogsAgree(Next(s, step))
  {
    var s' := Next(s, step);
    forall i: nat, r | i < |s'.nodes| ensures RowOps(s'.nodes[i].history, r) == LoggedOnRow(s', i, r) {
      assert RowOps(s.nodes[i].history, r) == LoggedOnRow(s, i, r);
      assert i in s.current && i in s.alive;
      assert r in s.nodes[i].pending ==> PendingOk(s, i, r);
      LoggedStep(s, step, i, r);
    }
  }

  lemma LoggedStep(s: System, step: Step, i: nat, r: string)
    requires Inv(s) && Faultless(s) && Enabled(s, step) && i < |s.nodes|
    requires !Fault(step)
    requires RowOps(s.nodes[i].history, r) == LoggedOnRow(s, i, r)
    requires r in s.nodes[i].pending ==> PendingOk(s, i, r)
    ensures i < |Next(s, step).nodes|
    ensures RowOps(Next(s, step).nodes[i].history, r) == LoggedOnRow(Next(s, step), i, r)
  {
    hide RowOps, Recoverable, Recover, Apply, Replay, DropEmptyRows, SameCells, CPutCheck, TouchRow,
      Disks, DownOk, Agree, DiskOk, CellOk, Settled, Enumerates, HoldsLine, Traced;
    match step
    case PeerLog(k, row) => LoggedByPeer(s, k, row, i, r);
    case PeerApply(k, row) => LoggedByApply(s, k, row, i, r);
    case PrimaryLog(row) => LoggedByPrimary(s, row, i, r);
    case Commit(row) => LoggedAtCommit(s, row, i, r);
    case _ =>
  }

  lemma LoggedByApply(s: System, k: nat, row: string, i: nat, r: string)
    requires Inv(s) && Enabled(s, PeerApply(k, row)) && i < |s.nodes|
    requires RowOps(s.nodes[i].history, r) == LoggedOnRow(s, i, r)
    ensures var s' := Next(s, PeerApply(k, row));
            RowOps(s'.nodes[i].history, r) == LoggedOnRow(s', i, r)
  {
    hide RowOps, Apply, Agree, Disks, DownOk;
  }

  lemma LoggedByPeer(s: System, k: nat, row: string, i: nat, r: string)
    requires Inv(s) && Enabled(s, PeerLog(k, row)) && i < |s.nodes|
    requires RowOps(s.nodes[i].history, r) == LoggedOnRow(s, i, r)
    ensures var s' := Next(s, PeerLog(k, row));
            RowOps(s'.nodes[i].history, r) == LoggedOnRow(s', i, r)
  {
    hide RowOps;
    RowOpsSnoc(s.nodes[k].history, s.flight[row].op, r);
  }

  lemma LoggedByPrimary(s: System, row: string, i: nat, r: string)
    requires Inv(s) && Enabled(s, PrimaryLog(row)) && i < |s.nodes|
    requires RowOps(s.nodes[i].history, r) == LoggedOnRow(s, i, r)
    ensures var s' := Next(s, PrimaryLog(row));
            RowOps(s'.nodes[i].history, r) == LoggedOnRow(s', i, r)
  {
    hide RowOps;
    RowOpsSnoc(s.nodes[s.primary.value].history, s.flight[row].op, r);
  }

  lemma LoggedAtCommit(s: System, row: string, i: nat, r: string)
    requires Inv(s) && Faultless(s) && Enabled(s, Commit(row)) && i < |s.nodes|
    requires RowOps(s.nodes[i].history, r) == LoggedOnRow(s, i, r)
    ensures var s' := Next(s, Commit(row));
            RowOps(s'.nodes[i].history, r) == LoggedOnRow(s', i, r)
  {
    hide RowOps;
    var p := s.primary.value;
    RowOpsSnoc(s.acked, s.flight[row].op, r);
    assert PendingOk(s, p, row);
    assert i != p ==> i in s.flight[row].applied + s.flight[row].failed;
    assert i in s.current && i !in s.flight[row].failed;
  }

  lemma {:induction false} LogsAgreeRun(s: System, steps: seq<Step>)
    requires Inv(s) && Faultless(s) && LogsAgree(s) && ValidRun(s, steps) && FaultFree(steps)
    ensures LogsAgree(Final(s, steps))
    decreases |steps|
  {
    hide Inv, Faultless, LogsAgree;
    if steps == [] {
    } else {
      NextInv(s, steps[0]);
      FaultFreeStep(s, steps[0]);
      LogsAgreeStep(s, steps[0]);
      LogsAgreeRun(Next(s, steps[0]), steps[1..]);
    }
  }

  /** Log agreement: on a row whose lock is free every node has logged exactly the acknowledged operations. */
  lemma LogAgreement(s0: System, steps: seq<Step>, i: nat, row: string)
    requires Init(s0) && ValidRun(s0, steps) && FaultFree(steps) && i < |s0.nodes|
    requires row !in Final(s0, steps).flight
    ensures i < |Final(s0, steps).nodes|
    ensures RowOps(Final(s0, steps).nodes[i].history, row) == RowOps(Final(s0, steps).acked, row)
  {
    StartFaultless(s0);
    assert LogsAgree(s0);
    FaultFreeRun(s0, steps);
    LogsAgreeRun(s0, steps);
  }

  lemma UntruncatedStep(s: System, step: Step)
    requires Enabled(s, step) && !step.Truncate? && !Fault(step)
    requires forall i :: 0 <= i < |s.nodes| ==> s.nodes[i].log == s.nodes[i].history
    ensures forall i :: 0 <= i < |Next(s, step).nodes| ==> Next(s, step).nodes[i].log == Next(s, step).nodes[i].history
  {
    hide HoldsLine;
  }

  lemma {:induction false} UntruncatedLogs(s: System, steps: seq<Step>)
    requires ValidRun(s, steps) && Untruncated(steps) && FaultFree(steps)
    requires forall i :: 0 <= i < |s.nodes| ==> s.nodes[i].log == s.nodes[i].history
    ensures forall i :: 0 <= i < |Final(s, steps).nodes| ==> Final(s, steps).nodes[i].log == Final(s, steps).nodes[i].history
    decreases |steps|
  {
    hide Enabled, Next;
    if steps == [] {
    } else {
      var s' := Next(s, steps[0]);
      UntruncatedStep(s, steps[0]);
      UntruncatedLogs(s', steps[1..]);
    }
  }

  /** So, before any truncation and with no write under way, replicas whose logs interleave the rows
      differently still replay to the same tablet: the committed one. */
  lemma ReplicasReplayAlike(s0: System, steps: seq<Step>, i: nat)
    requires Init(s0) && ValidRun(s0, steps) && FaultFree(steps) && Untruncated(steps) && i < |s0.nodes|
    requires Final(s0, steps).flight == map[]
    ensures i < |Final(s0, steps).nodes|
    ensures Replay(s0.base, Final(s0, steps).nodes[i].log) == Committed(Final(s0, steps))
  {
    var s := Final(s0, steps);
    UntruncatedLogs(s0, steps);
    StartFaultless(s0);
    FaultFreeRun(s0, steps);
    forall r ensures RowOps(s.nodes[i].history, r) == RowOps(s.acked, r) {
      LogAgreement(s0, steps, i, r);
    }
    ReplayByRows(s0.base, s.nodes[i].history, s.acked);
  }

  // ---- a successor that missed a delivery ----

  lemma RunCons(s: System, step: Step, rest: seq<Step>)
    requires Enabled(s, step) && ValidRun(Next(s, step), rest)
    ensures ValidRun(s, [step] + rest)
    ensures Final(s, [step] + rest) == Final(Next(s, step), rest)
  {
    assert ([step] + rest)[1..] == rest;
  }

  // Two nodes, node 0 the primary; flight holds the put, or nothing.
  ghost predicate Pair(s: System, current: set<nat>, flight: map<string, Flight>) {
    && s.primary == Some(0) && |s.nodes| == 2 && s.alive == {0, 1} && s.current == current && s.flight == flight
    && s.orphans == {} && s.nodes[1].mem == map[] && s.nodes[1].pending == map[]
  }

  // Node 1 misses a put.
  lemma NodeOneMisses(s: System, op: Op)
    requires Pair(s, {0, 1}, map[]) && WellFormedOp(op)
    ensures Enabled(s, Begin(op)) && Enabled(Next(s, Begin(op)), PeerFail(1, op.row))
    ensures var s' := Next(Next(s, Begin(op)), PeerFail(1, op.row));
            && Pair(s', {0}, map[op.row := Flight(op, {}, {1})]) && s'.nodes == s.nodes
            && s'.acked == s.acked && s'.since == s.since
  {
    var none: set<nat> := {};
    assert none + {1} == {1};
    assert Flight(op, {}, none + {1}) == Flight(op, {}, {1});
  }

  // Node 0 acknowledges it all the same.
  lemma NodeZeroAcknowledges(s: System, op: Op)
    requires Pair(s, {0}, map[op.row := Flight(op, {}, {1})]) && s.nodes[0].pending == map[] && !s.nodes[0].saving
    ensures Enabled(s, PrimaryLog(op.row)) && Enabled(Next(s, PrimaryLog(op.row)), Commit(op.row))
    ensures var s' := Next(Next(s, PrimaryLog(op.row)), Commit(op.row));
            Pair(s', {0}, map[]) && s'.acked == s.acked + [op] && s'.since == s.since + [op]
  {
    hide Apply;
    assert Joined(s, op.row);
    var s' := Next(Next(s, PrimaryLog(op.row)), Commit(op.row));
    assert s'.orphans == {};
  }

  lemma PutMissesNodeOne(s: System, op: Op)
    requires Pair(s, {0, 1}, map[]) && WellFormedOp(op) && s.nodes[0].pending == map[] && !s.nodes[0].saving
    ensures var steps := [Begin(op), PeerFail(1, op.row), PrimaryLog(op.row), Commit(op.row)];
            && ValidRun(s, steps)
            && Pair(Final(s, steps), {0}, map[])
            && Final(s, steps).acked == s.acked + [op] && Final(s, steps).since == s.since + [op]
  {
    hide ValidRun, Final, Enabled, Next;
    NodeOneMisses(s, op);
    var s1 := Next(s, Begin(op));
    var s2 := Next(s1, PeerFail(1, op.row));
    NodeZeroAcknowledges(s2, op);
    var s3 := Next(s2, PrimaryLog(op.row));
    EmptyRun(Next(s3, Commit(op.row)));
    RunCons(s3, Commit(op.row), []);
    RunCons(s2, PrimaryLog(op.row), [Commit(op.row)] + []);
    RunCons(s1, PeerFail(1, op.row), [PrimaryLog(op.row)] + ([Commit(op.row)] + []));
    RunCons(s, Begin(op), [PeerFail(1, op.row)] + ([PrimaryLog(op.row)] + ([Commit(op.row)] + [])));
    assert [Begin(op)] + ([PeerFail(1, op.row)] + ([PrimaryLog(op.row)] + ([Commit(op.row)] + []))) ==
           [Begin(op), PeerFail(1, op.row), PrimaryLog(op.row), Commit(op.row)];
  }

  lemma AcknowledgedPastAFailedCall(s0: System, op: Op)
    requires Init(s0) && |s0.nodes| == 2 && s0.base == map[] && op.Put? && op.row != "" && op.col != ""
    ensures var steps := [Appoint(0), Begin(op), PeerFail(1, op.row), PrimaryLog(op.row), Commit(op.row)];
            && ValidRun(s0, steps)
            && var s := Final(s0, steps);
            Pair(s, {0}, map[]) && s.acked == s.since == [op]
  {
    hide ValidRun, Final, Enabled, Next;
    FirstAppointment(s0);
    assert s0.alive == {0, 1} by {
      assert forall i: nat :: i in s0.alive <==> i == 0 || i == 1;
    }
    PutMissesNodeOne(Next(s0, Appoint(0)), op);
    var steps := [Begin(op), PeerFail(1, op.row), PrimaryLog(op.row), Commit(op.row)];
    RunCons(s0, Appoint(0), steps);
    assert [Appoint(0)] + steps == [Appoint(0), Begin(op), PeerFail(1, op.row), PrimaryLog(op.row), Commit(op.row)];
  }

  lemma FirstAppointment(s0: System)
    requires Init(s0)
    ensures Enabled(s0, Appoint(0)) && HoldsLine(s0, 0)
    ensures var s1 := Next(s0, Appoint(0));
            s1 == s0.(primary := Some(0), current := s1.current) && s1.current == s0.current
  {
    InitInv(s0);
    CurrentHoldsLine(s0, 0);
    hide HoldsLine;
  }

  lemma EmptyRun(s: System)
    ensures ValidRun(s, []) && Final(s, []) == s
  {
  }

  lemma {:induction false} RunSnoc(s: System, steps: seq<Step>, step: Step)
    requires ValidRun(s, steps) && Enabled(Final(s, steps), step)
    ensures ValidRun(s, steps + [step]) && Final(s, steps + [step]) == Next(Final(s, steps), step)
    decreases |steps|
  {
    if steps == [] {
      EmptyRun(Next(s, step));
      RunCons(s, step, []);
      assert [step] + [] == steps + [step];
    } else {
      RunSnoc(Next(s, steps[0]), steps[1..], step);
      RunCons(s, steps[0], steps[1..] + [step]);
      assert [steps[0]] + (steps[1..] + [step]) == steps + [step];
    }
  }

  /** The master appoints the first node that is alive. One that missed a delivery is alive too: in this run
      node 1 never gets a put that node 0 acknowledges, node 0 crashes, node 1 is appointed and answers that
      there is no such cell. */
  lemma StaleSuccessorLosesAcknowledgedPut(s0: System, op: Op)
    requires Init(s0) && |s0.nodes| == 2 && s0.base == map[] && op.Put? && op.row != "" && op.col != ""
    ensures var steps := [Appoint(0), Begin(op), PeerFail(1, op.row), PrimaryLog(op.row), Commit(op.row)] + [Crash(0)] + [Appoint(1)];
            && ValidRun(s0, steps)
            && var s := Final(s0, steps);
            && s.acked == [op] && s.primary == Some(1) && s.alive == {1} && |s.nodes| == 2
            && Get(s.nodes[1].mem, op.row, op.col) == GetReply(NOT_FOUND, "")
            && Cell(Committed(s), op.row, op.col) == None
  {
    var steps := [Appoint(0), Begin(op), PeerFail(1, op.row), PrimaryLog(op.row), Commit(op.row)];
    AcknowledgedPastAFailedCall(s0, op);
    hide ValidRun, Final, Init;
    hide Enabled, Next, Committed;
    var s := Final(s0, steps);
    RunSnoc(s0, steps, Crash(0));
    LastAckedIsLost(Next(s, Crash(0)), op);
    RunSnoc(s0, steps + [Crash(0)], Appoint(1));
  }

  lemma LastAckedIsLost(s: System, op: Op)
    requires Enabled(s, Appoint(1)) && s.since == [op] && op.Put? && s.orphans == {} && s.nodes[1].mem == map[]
    ensures var s' := Next(s, Appoint(1));
            && s'.primary == Some(1) && s'.acked == s.acked && s'.alive == s.alive && s'.nodes == s.nodes
            && Cell(Committed(s'), op.row, op.col) == None
  {
    var v := Cell(s.nodes[1].mem, op.row, op.col);
    assert s.since[..|s.since| - 1] == [] && Replay(s.base, []) == s.base;
    assert Committed(s) == Apply(s.base, op);
    ApplyCell(s.base, op, op.row, op.col);
    assert !Settled(s, op.row, op.col, v);
  }
}
