// A write call at the primary is a run of the partition: the node's calls refine the steps.
// KvNode.KVStore.Put, CPut and Delete say that the caller's node and every peer whose call got through have
// logged and applied the operation, and that the other peers are as they were. That is what this run does.
module Writes {
  import opened Tablets
  import opened Disk
  import opened Durable
  import opened Replication
  import opened Guarantees
  import opened KvNode

  /** The peers below k that the primary p reached, and those it did not. */
  function Reachable(net: seq<bool>, p: nat, k: nat): set<nat>
    requires k <= |net|
  {
    set i: nat | i < k && i != p && net[i]
  }

  function Missed(net: seq<bool>, p: nat, k: nat): set<nat>
    requires k <= |net|
  {
    set i: nat | i < k && i != p && !net[i]
  }

  /** The steps of the peer calls, in the order the primary makes them. */
  function PeerSteps(row: string, net: seq<bool>, p: nat, k: nat): seq<Step>
    requires k <= |net|
  {
    if k == 0 then []
    else
      var i := k - 1;
      PeerSteps(row, net, p, i) +
      (if i == p then [] else if net[i] then [PeerLog(i, row), PeerApply(i, row)] else [PeerFail(i, row)])
  }

  function WriteSteps(row: string, net: seq<bool>, p: nat): seq<Step> {
    PeerSteps(row, net, p, |net|) + [PrimaryLog(row)] + [Commit(row)]
  }

  // The nodes when the peers below k have been called.
  function CalledNodes(nodes: seq<Node>, op: Op, net: seq<bool>, p: nat, k: nat): seq<Node>
    requires |net| == |nodes| && k <= |net|
  {
    seq(|nodes|, i requires 0 <= i < |nodes| => if i < k && i != p && net[i] then Logged(nodes[i], op) else nodes[i])
  }

  function Called(s: System, op: Op, net: seq<bool>, p: nat, k: nat): System
    requires |net| == |s.nodes| && k <= |net|
  {
    s.(nodes := CalledNodes(s.nodes, op, net, p, k),
       flight := s.flight[op.row := Flight(op, Reachable(net, p, k), Missed(net, p, k))],
       current := s.current - Missed(net, p, k))
  }

  /** What the calls return with: the operation is logged and applied where it was delivered and at the primary,
      acknowledged, and no longer in flight. */
  function Written(s: System, op: Op, net: seq<bool>, p: nat): System
    requires |net| == |s.nodes| && p < |net|
  {
    var nodes := CalledNodes(s.nodes, op, net, p, |net|);
    s.(nodes := nodes[p := Logged(s.nodes[p], op)], flight := s.flight - {op.row}, acked := s.acked + [op], since := s.since + [op],
       current := s.current - Missed(net, p, |net|),
       orphans := set o | o in s.orphans && !Touches(o, op.row, op.col))
  }

  // The row is free, the primary is p, and every delivered call finds its peer up and the row's lock free there.
  ghost predicate Writable(s: System, op: Op, net: seq<bool>, p: nat) {
    && Shape(s) && s.primary == Some(p) && |net| == |s.nodes|
    && op.row in s.flight && s.flight[op.row] == Flight(op, {}, {})
    && forall i: nat :: i < |s.nodes| ==>
         op.row !in s.nodes[i].pending && ((net[i] || i == p) ==> i in s.alive && !s.nodes[i].saving)
  }

  lemma LoggedRoundTrip(n: Node, op: Op)
    requires op.row !in n.pending
    ensures Logged(n, op).pending == n.pending
    ensures op.row in LogOp(n, op).pending
    ensures ApplyPending(LogOp(n, op), op.row) == Logged(n, op)
  {
    assert n.pending[op.row := op] - {op.row} == n.pending;
  }

  lemma CallDelivered(s: System, op: Op, net: seq<bool>, p: nat, k: nat)
    requires Writable(s, op, net, p) && k < |net| && k != p && net[k]
    ensures Enabled(Called(s, op, net, p, k), PeerLog(k, op.row))
    ensures var logged := Next(Called(s, op, net, p, k), PeerLog(k, op.row));
            Enabled(logged, PeerApply(k, op.row)) && Next(logged, PeerApply(k, op.row)) == Called(s, op, net, p, k + 1)
  {
    hide Logged, LogOp, ApplyPending;
    LoggedRoundTrip(s.nodes[k], op);
    assert Reachable(net, p, k + 1) == Reachable(net, p, k) + {k} && Missed(net, p, k + 1) == Missed(net, p, k);
    var c := Called(s, op, net, p, k);
    var logged := Next(c, PeerLog(k, op.row));
    assert logged.nodes == c.nodes[k := LogOp(s.nodes[k], op)];
    assert CalledNodes(s.nodes, op, net, p, k + 1) == c.nodes[k := Logged(s.nodes[k], op)];
  }

  lemma CallFailed(s: System, op: Op, net: seq<bool>, p: nat, k: nat)
    requires Writable(s, op, net, p) && k < |net| && k != p && !net[k]
    ensures Enabled(Called(s, op, net, p, k), PeerFail(k, op.row))
    ensures Next(Called(s, op, net, p, k), PeerFail(k, op.row)) == Called(s, op, net, p, k + 1)
  {
    hide Logged;
    assert Reachable(net, p, k + 1) == Reachable(net, p, k) && Missed(net, p, k + 1) == Missed(net, p, k) + {k};
    assert CalledNodes(s.nodes, op, net, p, k + 1) == CalledNodes(s.nodes, op, net, p, k);
  }

  lemma NotCalled(s: System, op: Op, net: seq<bool>, p: nat)
    requires Writable(s, op, net, p) && p < |net|
    ensures Called(s, op, net, p, p + 1) == Called(s, op, net, p, p)
  {
    assert Reachable(net, p, p + 1) == Reachable(net, p, p) && Missed(net, p, p + 1) == Missed(net, p, p);
    assert CalledNodes(s.nodes, op, net, p, p + 1) == CalledNodes(s.nodes, op, net, p, p);
  }

  lemma NoneCalled(s: System, op: Op, net: seq<bool>, p: nat)
    requires Writable(s, op, net, p)
    ensures Called(s, op, net, p, 0) == s
  {
    assert Reachable(net, p, 0) == {} && Missed(net, p, 0) == {};
    assert CalledNodes(s.nodes, op, net, p, 0) == s.nodes;
  }

  lemma {:induction false} PeersCalled(s: System, op: Op, net: seq<bool>, p: nat, k: nat)
    requires Writable(s, op, net, p) && k <= |net|
    ensures ValidRun(s, PeerSteps(op.row, net, p, k))
    ensures Final(s, PeerSteps(op.row, net, p, k)) == Called(s, op, net, p, k)
  {
    hide Writable, Called, Enabled, ValidRun, Next;
    if k == 0 {
      EmptyRun(s);
      NoneCalled(s, op, net, p);
    } else {
      var i := k - 1;
      var before := PeerSteps(op.row, net, p, i);
      PeersCalled(s, op, net, p, i);
      if i == p {
        assert before + [] == before;
        NotCalled(s, op, net, p);
      } else if net[i] {
        CallDelivered(s, op, net, p, i);
        RunSnoc(s, before, PeerLog(i, op.row));
        RunSnoc(s, before + [PeerLog(i, op.row)], PeerApply(i, op.row));
        assert before + [PeerLog(i, op.row)] + [PeerApply(i, op.row)] == before + [PeerLog(i, op.row), PeerApply(i, op.row)];
      } else {
        CallFailed(s, op, net, p, i);
        RunSnoc(s, before, PeerFail(i, op.row));
      }
    }
  }

  // The primary logs, applies and acknowledges once every call has returned.
  lemma PrimaryWrites(s: System, op: Op, net: seq<bool>, p: nat)
    requires Writable(s, op, net, p)
    ensures var c := Called(s, op, net, p, |net|);
            && Enabled(c, PrimaryLog(op.row))
            && Enabled(Next(c, PrimaryLog(op.row)), Commit(op.row))
            && Next(Next(c, PrimaryLog(op.row)), Commit(op.row)) == Written(s, op, net, p)
  {
    hide Logged, LogOp, ApplyPending;
    LoggedRoundTrip(s.nodes[p], op);
    var c := Called(s, op, net, p, |net|);
    assert c.nodes[p] == s.nodes[p];
    var c1 := Next(c, PrimaryLog(op.row));
    assert c1.nodes == c.nodes[p := LogOp(s.nodes[p], op)];
    assert c.flight - {op.row} == s.flight - {op.row};
  }

  /** The calls of one write, from the moment its row is locked, are a run that ends with the operation logged
      and applied at the primary and at exactly the peers that were reached. */
  lemma WriteIsARun(s: System, op: Op, net: seq<bool>, p: nat)
    requires Writable(s, op, net, p)
    ensures ValidRun(s, WriteSteps(op.row, net, p))
    ensures Final(s, WriteSteps(op.row, net, p)) == Written(s, op, net, p)
  {
    hide Writable, Called, Written, Enabled, ValidRun, Next, PeerSteps;
    var calls := PeerSteps(op.row, net, p, |net|);
    PeersCalled(s, op, net, p, |net|);
    PrimaryWrites(s, op, net, p);
    RunSnoc(s, calls, PrimaryLog(op.row));
    RunSnoc(s, calls + [PrimaryLog(op.row)], Commit(op.row));
  }

  /** A call that arrives after its primary has crashed does at the peer what PPut and PDelete do there, and nothing else. */
  lemma LateDelivery(s: System, i: nat, op: Op)
    requires Inv(s) && Enabled(s, LateLog(i, op))
    ensures var steps := [LateLog(i, op), PeerApply(i, op.row)];
            ValidRun(s, steps) && Final(s, steps) == s.(nodes := s.nodes[i := Logged(s.nodes[i], op)])
  {
    hide Inv, LogOp, ApplyPending, Logged;
    LoggedRoundTrip(s.nodes[i], op);
    assert s.flight == map[] by { LateMeansNoFlight(s); }
    var s1 := Next(s, LateLog(i, op));
    EmptyRun(Next(s1, PeerApply(i, op.row)));
    RunCons(s1, PeerApply(i, op.row), []);
    RunCons(s, LateLog(i, op), [PeerApply(i, op.row)] + []);
    assert [LateLog(i, op)] + ([PeerApply(i, op.row)] + []) == [LateLog(i, op), PeerApply(i, op.row)];
  }

  lemma LateMeansNoFlight(s: System)
    requires Inv(s) && s.primary == None
    ensures s.flight == map[]
  {
  }

  // ---- the node processes and the partition model side by side ----

  /** Each process is the node of the model with the same number; the one at p is the primary. */
  ghost predicate Mirrors(s: System, stores: seq<KVStore>, p: nat)
    reads stores
  {
    && Inv(s) && s.primary == Some(p) && p < |stores| == |s.nodes|
    && (forall i, j :: 0 <= i < j < |stores| ==> stores[i] != stores[j])
    && (forall i: nat :: i < |stores| ==> stores[i].Valid() && stores[i].node == s.nodes[i])
  }

  // The process knows that it is the primary, or knows of none and the master names it.
  predicate KnowsItself(store: KVStore, masterSays: Option<string>)
    reads store
  {
    store.primaryIdx == PRIM_ME || (store.primaryIdx == PRIM_UNKNOWN && masterSays == Some(store.addr))
  }

  // Nobody holds the row's lock, no checkpoint is under way, and only nodes that are alive serve.
  ghost predicate RowFree(s: System, stores: seq<KVStore>, row: string)
    requires |stores| == |s.nodes|
    reads stores
  {
    && row !in s.flight
    && forall i: nat :: i < |stores| ==>
         row !in s.nodes[i].pending && !s.nodes[i].saving && (stores[i].serving ==> i in s.alive)
  }

  function Others<T>(xs: seq<T>, p: nat): seq<T>
    requires p < |xs|
  {
    xs[..p] + xs[p + 1..]
  }

  // The calls that reach a peer that serves.
  function Served(stores: seq<KVStore>, net: seq<bool>): (d: seq<bool>)
    requires |net| == |stores|
    reads stores
  {
    seq(|net|, i requires 0 <= i < |net| reads stores => net[i] && stores[i].serving)
  }

  lemma OthersIndex<T>(xs: seq<T>, p: nat, j: nat)
    requires p < |xs| && j < |Others(xs, p)|
    ensures Others(xs, p)[j] == xs[if j < p then j else j + 1]
  {
  }

  lemma OthersReady(s: System, stores: seq<KVStore>, p: nat, a: nat, net: seq<bool>, row: string)
    requires Mirrors(s, stores, p) && a < |net| == |stores| && RowFree(s, stores, row)
    ensures stores[a].Valid() && row !in stores[a].node.pending && !stores[a].node.saving
    ensures stores[a].PeersReady(Others(stores, a), Others(net, a), row)
    ensures forall peer :: peer in Others(stores, a) ==> peer in stores
  {
    hide Inv, KVStore.Valid;
    var peers := Others(stores, a);
    assert |Others(net, a)| == |peers| == |stores| - 1;
    hide Others;
    forall j | 0 <= j < |peers|
      ensures peers[j] != stores[a] && peers[j].Valid() && row !in peers[j].node.pending && !peers[j].node.saving
    {
      OthersIndex(stores, a, j);
    }
    forall i, j | 0 <= i < j < |peers| ensures peers[i] != peers[j] {
      OthersIndex(stores, a, i);
      OthersIndex(stores, a, j);
    }
  }

  // After the calls: the operation at the primary and where it was delivered, and nowhere else.
  ghost predicate AfterWrite(nodes: seq<Node>, nodes': seq<Node>, op: Op, served: seq<bool>, p: nat) {
    && |nodes| == |nodes'| == |served|
    && forall i: nat :: i < |nodes| ==> nodes'[i] == if i == p || served[i] then Logged(nodes[i], op) else nodes[i]
  }

  lemma LoggedCell(n: Node, op: Op)
    ensures Cell(Logged(n, op).mem, op.row, op.col) == Effect(op)
  {
    ApplyCell(n.mem, op, op.row, op.col);
  }

  predicate Begins(s: System, first: Step, op: Op) {
    || first == Begin(op)
    || (first.BeginCPut? && op == Op.Put(first.row, first.col, first.v2))
  }

  /** From the first step of a write to its acknowledgement, as one run. */
  lemma WholeWrite(s: System, first: Step, op: Op, served: seq<bool>, p: nat)
    requires Inv(s) && s.primary == Some(p) && |served| == |s.nodes|
    requires Enabled(s, first) && Begins(s, first, op)
    requires forall i: nat :: i < |s.nodes| ==>
               op.row !in s.nodes[i].pending && !s.nodes[i].saving && (served[i] ==> i in s.alive)
    ensures var steps := [first] + WriteSteps(op.row, served, p);
            && ValidRun(s, steps) && Inv(Final(s, steps))
            && AfterWrite(Next(s, first).nodes, Final(s, steps).nodes, op, served, p)
            && Final(s, steps).primary == Some(p) && Final(s, steps).acked == s.acked + [op]
  {
    hide Agree, Disks, DownOk, Pending, Logged, WriteSteps, CPutCheck, TouchRow, ValidRun, Final;
    NextInv(s, first);
    var s1 := Next(s, first);
    assert Writable(s1, op, served, p);
    WriteIsARun(s1, op, served, p);
    RunCons(s, first, WriteSteps(op.row, served, p));
    RunInv(s, [first] + WriteSteps(op.row, served, p));
  }

  /** A client's put at the primary, with the run of the partition it performs; it is in the memory of every node that
      its calls reached. */
  method ClientPut(stores: seq<KVStore>, p: nat, row: string, col: string, data: string, masterSays: Option<string>, net: seq<bool>,
                   ghost s: System)
    returns (out: Outcome, ghost steps: seq<Step>)
    requires Mirrors(s, stores, p) && |net| == |stores| && RowFree(s, stores, row) && KnowsItself(stores[p], masterSays)
    modifies stores
    ensures ValidRun(s, steps) && Mirrors(Final(s, steps), stores, p) && KnowsItself(stores[p], masterSays)
    ensures forall i: nat :: i < |stores| ==> stores[i].serving == old(stores[i].serving)
    ensures out.Reply? && (out.code == OK <==> old(stores[p].serving) && row != "" && col != "")
    ensures out.code == OK ==> Final(s, steps).acked == s.acked + [Op.Put(row, col, data)]
    ensures out.code == OK ==> forall i: nat :: i < |stores| && (i == p || (net[i] && stores[i].serving)) ==>
              Cell(stores[i].tablet, row, col) == Some(data)
    ensures out.code != OK ==> Final(s, steps) == s
  {
    hide Inv, Enabled, Next, ValidRun, Final, Logged, WriteSteps, Others, Cell, KVStore.NextView, KVStore.Valid, KVStore.PeersReady;
    var op := Op.Put(row, col, data);
    ghost var served := Served(stores, net);
    OthersReady(s, stores, p, p, net, row);
    OthersMirror(s, stores, p, net);
    var peers, calls := Others(stores, p), Others(net, p);
    assert forall i :: 0 <= i < |peers| ==> peers[i] in stores;
    out := stores[p].Put(row, col, data, masterSays, peers, calls);
    if out.code == OK {
      OthersAfter(s, stores, p, served, op);
      PutEnabled(s, op);
      WholeWrite(s, Begin(op), op, served, p);
      steps := [Begin(op)] + WriteSteps(row, served, p);
      HeldWhereServed(stores, Next(s, Begin(op)).nodes, served, op, p);
    } else {
      steps := [];
      EmptyRun(s);
    }
  }

  /** The same for a delete. */
  method ClientDelete(stores: seq<KVStore>, p: nat, row: string, col: string, masterSays: Option<string>, net: seq<bool>,
                      ghost s: System)
    returns (out: Outcome, ghost steps: seq<Step>)
    requires Mirrors(s, stores, p) && |net| == |stores| && RowFree(s, stores, row) && KnowsItself(stores[p], masterSays)
    modifies stores
    ensures ValidRun(s, steps) && Mirrors(Final(s, steps), stores, p) && KnowsItself(stores[p], masterSays)
    ensures forall i: nat :: i < |stores| ==> stores[i].serving == old(stores[i].serving)
    ensures out.Reply? && (out.code == OK <==> old(stores[p].serving))
    ensures out.code == OK ==> Final(s, steps).acked == s.acked + [Op.Delete(row, col)]
    ensures out.code == OK ==> forall i: nat :: i < |stores| && (i == p || (net[i] && stores[i].serving)) ==>
              Cell(stores[i].tablet, row, col) == None
    ensures out.code != OK ==> Final(s, steps) == s
  {
    hide Inv, Enabled, Next, ValidRun, Final, Logged, WriteSteps, Others, Cell, KVStore.NextView, KVStore.Valid, KVStore.PeersReady;
    var op := Op.Delete(row, col);
    ghost var served := Served(stores, net);
    OthersReady(s, stores, p, p, net, row);
    OthersMirror(s, stores, p, net);
    var peers, calls := Others(stores, p), Others(net, p);
    assert forall i :: 0 <= i < |peers| ==> peers[i] in stores;
    out := stores[p].Delete(row, col, masterSays, peers, calls);
    if out.code == OK {
      OthersAfter(s, stores, p, served, op);
      PutEnabled(s, op);
      WholeWrite(s, Begin(op), op, served, p);
      steps := [Begin(op)] + WriteSteps(row, served, p);
      HeldWhereServed(stores, Next(s, Begin(op)).nodes, served, op, p);
    } else {
      steps := [];
      EmptyRun(s);
    }
  }

  /** The same for a conditional put: one that fails its check leaves everything as it was. */
  method ClientCPut(stores: seq<KVStore>, p: nat, row: string, col: string, v1: string, v2: string, masterSays: Option<string>, net: seq<bool>,
                    ghost s: System)
    returns (out: Outcome, ghost steps: seq<Step>)
    requires Mirrors(s, stores, p) && |net| == |stores| && RowFree(s, stores, row) && KnowsItself(stores[p], masterSays)
    modifies stores
    ensures ValidRun(s, steps) && Mirrors(Final(s, steps), stores, p) && KnowsItself(stores[p], masterSays)
    ensures forall i: nat :: i < |stores| ==> stores[i].serving == old(stores[i].serving)
    ensures out.Reply? && (out.code == OK <==> old(stores[p].serving) && row != "" && col != "" &&
                                               CPutCheck(s.nodes[p].mem, row, col, v1) == OK)
    ensures out.code == OK ==> Final(s, steps).acked == s.acked + [Op.Put(row, col, v2)]
    ensures out.code == OK ==> forall i: nat :: i < |stores| && (i == p || (net[i] && stores[i].serving)) ==>
              Cell(stores[i].tablet, row, col) == Some(v2)
    ensures out.code != OK ==> Final(s, steps) == s
  {
    hide Inv, Enabled, Next, ValidRun, Final, Logged, WriteSteps, Others, Cell, KVStore.NextView, KVStore.Valid, KVStore.PeersReady, CPutCheck, TouchRow;
    var op := Op.Put(row, col, v2);
    ghost var served := Served(stores, net);
    OthersReady(s, stores, p, p, net, row);
    OthersMirror(s, stores, p, net);
    TabletIsMem(stores[p]);
    var peers, calls := Others(stores, p), Others(net, p);
    assert forall i :: 0 <= i < |peers| ==> peers[i] in stores;
    out := stores[p].CPut(row, col, v1, v2, masterSays, peers, calls);
    if out.code == OK {
      OthersAfter(s, stores, p, served, op);
      CPutEnabled(s, row, col, v1, v2);
      WholeWrite(s, BeginCPut(row, col, v1, v2), op, served, p);
      steps := [BeginCPut(row, col, v1, v2)] + WriteSteps(row, served, p);
      HeldWhereServed(stores, Next(s, BeginCPut(row, col, v1, v2)).nodes, served, op, p);
    } else {
      steps := [];
      EmptyRun(s);
    }
  }

  /** A node that is down starts again and is filled by the peer at j: where its log reads back, that is the
      step of the partition. */
  method RestartNode(stores: seq<KVStore>, p: nat, i: nat, j: nat, puts: seq<Op>, ghost s: System)
    returns (alive: bool, ghost steps: seq<Step>)
    requires Mirrors(s, stores, p) && i < |stores| && i != p && Enabled(s, Rejoin(i, j, puts)) && Puts(puts)
    requires s.nodes[i] == Down(s.nodes[i])
    requires CellsFit(s.nodes[i].db) && AllOpsFit(s.nodes[i].log) && DeletesOnlyLast(s.nodes[i].log)
    modifies stores[i]
    ensures alive && ValidRun(s, steps) && Mirrors(Final(s, steps), stores, p)
    ensures Final(s, steps).alive == s.alive + {i}
  {
    hide Inv, Enabled, ValidRun, Final, KVStore.Valid, CellsFit, AllOpsFit, DeletesOnlyLast, RecoverBytes, Restart, Down;
    alive := stores[i].Init(puts);
    steps := [Rejoin(i, j, puts)] + [];
    RejoinEffect(s, i, j, puts);
    hide Next;
    EmptyRun(Next(s, Rejoin(i, j, puts)));
    RunCons(s, Rejoin(i, j, puts), []);
    NextInv(s, Rejoin(i, j, puts));
  }

  lemma HeldWhereServed(stores: seq<KVStore>, nodes: seq<Node>, served: seq<bool>, op: Op, p: nat)
    requires |stores| == |nodes| == |served| && p < |stores|
    requires forall i: nat :: i < |stores| ==>
               stores[i].Valid() && stores[i].node == if i == p || served[i] then Logged(nodes[i], op) else nodes[i]
    ensures forall i: nat :: i < |stores| && (i == p || served[i]) ==> Cell(stores[i].tablet, op.row, op.col) == Effect(op)
  {
    hide Logged, KVStore.Valid;
    forall i: nat | i < |stores| && (i == p || served[i])
      ensures Cell(stores[i].tablet, op.row, op.col) == Effect(op)
    {
      LoggedCell(nodes[i], op);
      TabletIsMem(stores[i]);
    }
  }

  lemma RejoinEffect(s: System, i: nat, j: nat, puts: seq<Op>)
    requires Enabled(s, Rejoin(i, j, puts))
    ensures var s' := Next(s, Rejoin(i, j, puts));
            && i < |s.nodes| && s'.nodes == s.nodes[i := Restart(s.nodes[i], puts)]
            && s'.primary == s.primary && s'.alive == s.alive + {i}
  {
  }

  lemma TabletIsMem(store: KVStore)
    requires store.Valid()
    ensures store.tablet == store.node.mem
  {
  }

  lemma CPutEnabled(s: System, row: string, col: string, v1: string, v2: string)
    requires s.primary.Some? && s.primary.value < |s.nodes| && row !in s.flight && row != "" && col != ""
    requires CPutCheck(s.nodes[s.primary.value].mem, row, col, v1) == OK
    ensures Enabled(s, BeginCPut(row, col, v1, v2))
    ensures var p := s.primary.value;
            Next(s, BeginCPut(row, col, v1, v2)).nodes == s.nodes[p := s.nodes[p].(mem := TouchRow(s.nodes[p].mem, row))]
  {
  }

  // The peers in the model, before the calls.
  lemma OthersMirror(s: System, stores: seq<KVStore>, p: nat, net: seq<bool>)
    requires Mirrors(s, stores, p) && |net| == |stores|
    ensures |Others(s.nodes, p)| == |Others(stores, p)| == |Others(net, p)| == |Others(Served(stores, net), p)|
    ensures forall j :: 0 <= j < |Others(stores, p)| ==>
              && Others(stores, p)[j].node == Others(s.nodes, p)[j]
              && Others(Served(stores, net), p)[j] == (Others(net, p)[j] && Others(stores, p)[j].serving)
  {
    hide Inv, KVStore.Valid;
  }

  // And after them, numbered as nodes again.
  lemma OthersAfter(s: System, stores: seq<KVStore>, p: nat, served: seq<bool>, op: Op)
    requires p < |stores| == |served| == |s.nodes|
    requires forall j :: 0 <= j < |Others(stores, p)| ==>
               && Others(stores, p)[j].Valid()
               && Others(stores, p)[j].node ==
                  if Others(served, p)[j] then Logged(Others(s.nodes, p)[j], op) else Others(s.nodes, p)[j]
    ensures forall i: nat :: i < |stores| && i != p ==>
              stores[i].Valid() && stores[i].node == if served[i] then Logged(s.nodes[i], op) else s.nodes[i]
  {
    hide Logged, KVStore.Valid;
    var peers := Others(stores, p);
    forall i: nat | i < |stores| && i != p
      ensures stores[i].Valid() && stores[i].node == if served[i] then Logged(s.nodes[i], op) else s.nodes[i]
    {
      var j := if i < p then i else i - 1;
      assert peers[j] == stores[i] && Others(served, p)[j] == served[i] && Others(s.nodes, p)[j] == s.nodes[i];
    }
  }

  lemma PutEnabled(s: System, op: Op)
    requires s.primary.Some? && op.row !in s.flight && WellFormedOp(op)
    ensures Enabled(s, Begin(op)) && Next(s, Begin(op)).nodes == s.nodes
  {
  }

  /** With distinct addresses, node j told the address of node p acts on node p: itself, or the peer it is. */
  lemma ResolveFindsTheNode(addrs: seq<string>, j: nat, p: nat)
    requires j < |addrs| && p < |addrs| && forall a, b :: 0 <= a < b < |addrs| ==> addrs[a] != addrs[b]
    ensures var idx := Resolve(addrs[j], Others(addrs, j), addrs[p]);
            if p == j then idx == PRIM_ME else 0 <= idx < |Others(addrs, j)| && idx == (if p < j then p else p - 1)
  {
    var others, k := Others(addrs, j), if p < j then p else p - 1;
    if p != j {
      assert others[k] == addrs[p] && addrs[p] != addrs[j];
      forall i | 0 <= i < k ensures others[i] != addrs[p] {
        OthersIndex(addrs, j, i);
      }
      FirstIndexIs(others, addrs[p], k);
    }
  }

  // ---- a write at a node that knows of no primary ----

  ghost predicate Wired(stores: seq<KVStore>, addrs: seq<string>) {
    && |addrs| == |stores|
    && (forall a, b :: 0 <= a < b < |addrs| ==> addrs[a] != addrs[b])
    && forall i :: 0 <= i < |stores| ==> stores[i].addr == addrs[i] && stores[i].peerAddrs == Others(addrs, i)
  }

  // The peer that node j has under that index is node p.
  predicate IsPeer(stores: seq<KVStore>, j: nat, index: nat, p: nat) {
    j < |stores| && p < |stores| && index < |Others(stores, j)| && Others(stores, j)[index] == stores[p]
  }

  lemma ViewNamed(stores: seq<KVStore>, addrs: seq<string>, j: nat, p: nat)
    requires Wired(stores, addrs) && j < |stores| && p < |stores| && j != p
    ensures |addrs| == |stores|
    ensures var idx := stores[j].NextView(PRIM_UNKNOWN, Some(addrs[p])); idx >= 0 && IsPeer(stores, j, idx, p)
  {
    ResolveFindsTheNode(addrs, j, p);
  }

  /** A put at a node other than the primary p, which knows of no primary and is told the address of p: it changes
      no node there, is handed to node p, and becomes the run of the partition that the put is at p. */
  method PutAtNode(stores: seq<KVStore>, addrs: seq<string>, j: nat, p: nat, row: string, col: string, data: string,
                   net: seq<bool>, ghost s: System)
    returns (first: Outcome, out: Outcome, ghost steps: seq<Step>)
    requires Mirrors(s, stores, p) && |net| == |stores| && RowFree(s, stores, row) && Wired(stores, addrs)
    requires j < |stores| && j != p && stores[j].primaryIdx == PRIM_UNKNOWN && KnowsItself(stores[p], Some(addrs[p]))
    modifies stores
    ensures old(stores[j].serving) && row != "" && col != "" ==> first.Forward? && IsPeer(stores, j, first.peer, p)
    ensures !(old(stores[j].serving) && row != "" && col != "") ==> out == first && first.Reply? && first.code != OK
    ensures ValidRun(s, steps) && Mirrors(Final(s, steps), stores, p)
    ensures out.Reply? && (out.code == OK <==> old(stores[j].serving) && row != "" && col != "" && old(stores[p].serving))
    ensures out.code == OK ==> Final(s, steps).acked == s.acked + [Op.Put(row, col, data)]
    ensures out.code != OK ==> Final(s, steps) == s
  {
    hide Inv, Enabled, Next, ValidRun, Final, KVStore.Valid, KVStore.PeersReady, KVStore.NextView, Wired;
    OthersReady(s, stores, p, j, net, row);
    ViewNamed(stores, addrs, j, p);
    var peers, calls := Others(stores, j), Others(net, j);
    assert forall i :: 0 <= i < |peers| ==> peers[i] in stores;
    first := stores[j].Put(row, col, data, Some(addrs[p]), peers, calls);
    forall i: nat | i < |stores| && i != j ensures unchanged(stores[i]) {
      assert peers[if i < j then i else i - 1] == stores[i];
    }
    if first.Forward? {
      out, steps := ClientPut(stores, p, row, col, data, Some(addrs[p]), net, s);
    } else {
      out, steps := first, [];
      EmptyRun(s);
    }
  }

  /** The same for a delete. */
  method DeleteAtNode(stores: seq<KVStore>, addrs: seq<string>, j: nat, p: nat, row: string, col: string,
                      net: seq<bool>, ghost s: System)
    returns (first: Outcome, out: Outcome, ghost steps: seq<Step>)
    requires Mirrors(s, stores, p) && |net| == |stores| && RowFree(s, stores, row) && Wired(stores, addrs)
    requires j < |stores| && j != p && stores[j].primaryIdx == PRIM_UNKNOWN && KnowsItself(stores[p], Some(addrs[p]))
    modifies stores
    ensures old(stores[j].serving) ==> first.Forward? && IsPeer(stores, j, first.peer, p)
    ensures !(old(stores[j].serving)) ==> out == first && first.Reply? && first.code != OK
    ensures ValidRun(s, steps) && Mirrors(Final(s, steps), stores, p)
    ensures out.Reply? && (out.code == OK <==> old(stores[j].serving) && old(stores[p].serving))
    ensures out.code == OK ==> Final(s, steps).acked == s.acked + [Op.Delete(row, col)]
    ensures out.code != OK ==> Final(s, steps) == s
  {
    hide Inv, Enabled, Next, ValidRun, Final, KVStore.Valid, KVStore.PeersReady, KVStore.NextView, Wired;
    OthersReady(s, stores, p, j, net, row);
    ViewNamed(stores, addrs, j, p);
    var peers, calls := Others(stores, j), Others(net, j);
    assert forall i :: 0 <= i < |peers| ==> peers[i] in stores;
    first := stores[j].Delete(row, col, Some(addrs[p]), peers, calls);
    forall i: nat | i < |stores| && i != j ensures unchanged(stores[i]) {
      assert peers[if i < j then i else i - 1] == stores[i];
    }
    if first.Forward? {
      out, steps := ClientDelete(stores, p, row, col, Some(addrs[p]), net, s);
    } else {
      out, steps := first, [];
      EmptyRun(s);
    }
  }

  /** The same for a conditional put. */
  method CPutAtNode(stores: seq<KVStore>, addrs: seq<string>, j: nat, p: nat, row: string, col: string, v1: string, v2: string,
                    net: seq<bool>, ghost s: System)
    returns (first: Outcome, out: Outcome, ghost steps: seq<Step>)
    requires Mirrors(s, stores, p) && |net| == |stores| && RowFree(s, stores, row) && Wired(stores, addrs)
    requires j < |stores| && j != p && stores[j].primaryIdx == PRIM_UNKNOWN && KnowsItself(stores[p], Some(addrs[p]))
    modifies stores
    ensures old(stores[j].serving) && row != "" && col != "" ==> first.Forward? && IsPeer(stores, j, first.peer, p)
    ensures !(old(stores[j].serving) && row != "" && col != "") ==> out == first && first.Reply? && first.code != OK
    ensures ValidRun(s, steps) && Mirrors(Final(s, steps), stores, p)
    ensures out.Reply? && (out.code == OK <==> old(stores[j].serving) && row != "" && col != "" && old(stores[p].serving) &&
                                               CPutCheck(s.nodes[p].mem, row, col, v1) == OK)
    ensures out.code == OK ==> Final(s, steps).acked == s.acked + [Op.Put(row, col, v2)]
    ensures out.code != OK ==> Final(s, steps) == s
  {
    hide Inv, Enabled, Next, ValidRun, Final, KVStore.Valid, KVStore.PeersReady, KVStore.NextView, Wired, CPutCheck;
    OthersReady(s, stores, p, j, net, row);
    ViewNamed(stores, addrs, j, p);
    var peers, calls := Others(stores, j), Others(net, j);
    assert forall i :: 0 <= i < |peers| ==> peers[i] in stores;
    first := stores[j].CPut(row, col, v1, v2, Some(addrs[p]), peers, calls);
    forall i: nat | i < |stores| && i != j ensures unchanged(stores[i]) {
      assert peers[if i < j then i else i - 1] == stores[i];
    }
    if first.Forward? {
      out, steps := ClientCPut(stores, p, row, col, v1, v2, Some(addrs[p]), net, s);
    } else {
      out, steps := first, [];
      EmptyRun(s);
    }
  }
}
