// The master: health rounds and the appointment of primaries, and what the nodes believe.
module KvMaster {
  import opened Tablets

  datatype NodeView = NodeView(addr: string, alive: bool)

  /** primaryIdx is -1 when no primary is known. */
  datatype PartitionView = PartitionView(primaryIdx: int, nodes: seq<NodeView>)

  // ---- one round on one partition ----

  predicate InRange(part: PartitionView) {
    -1 <= part.primaryIdx < |part.nodes|
  }

  function Checked(nodes: seq<NodeView>, health: seq<bool>): (r: seq<NodeView>)
    requires |health| == |nodes|
    ensures |r| == |nodes| && forall i :: 0 <= i < |r| ==> r[i] == nodes[i].(alive := health[i])
  {
    seq(|nodes|, i requires 0 <= i < |nodes| => nodes[i].(alive := health[i]))
  }

  function FirstTrue(health: seq<bool>): (i: int)
    ensures -1 <= i < |health|
    ensures i >= 0 ==> health[i] && forall j :: 0 <= j < i ==> !health[j]
    ensures i < 0 ==> forall j :: 0 <= j < |health| ==> !health[j]
  {
    if health == [] then -1
    else if health[0] then 0
    else
      var i := FirstTrue(health[1..]);
      if i < 0 then -1 else i + 1
  }

  /** The primary after a round: kept while it passes, otherwise the first node that passes. */
  function NextPrimary(primaryIdx: int, health: seq<bool>): (p: int)
    requires -1 <= primaryIdx < |health|
    ensures -1 <= p < |health|
  {
    if primaryIdx != -1 && health[primaryIdx] then primaryIdx else FirstTrue(health)
  }

  /** The round appoints: the whole partition is told. A primary that is kept is not announced again. */
  predicate Appoints(primaryIdx: int, health: seq<bool>)
    requires -1 <= primaryIdx < |health|
  {
    !(primaryIdx != -1 && health[primaryIdx]) && FirstTrue(health) != -1
  }

  function Round(part: PartitionView, health: seq<bool>): PartitionView
    requires InRange(part) && |health| == |part.nodes|
  {
    PartitionView(NextPrimary(part.primaryIdx, health), Checked(part.nodes, health))
  }

  /** The address sent to every node of the partition after a round, if any. */
  function Announcement(part: PartitionView, health: seq<bool>): Option<string>
    requires InRange(part) && |health| == |part.nodes|
  {
    if Appoints(part.primaryIdx, health) then Some(part.nodes[FirstTrue(health)].addr) else None
  }

  // ---- the master process ----

  class KVMaster {
    var partitions: seq<PartitionView>

    ghost predicate Valid()
      reads this
    {
      forall p :: 0 <= p < |partitions| ==> InRange(partitions[p])
    }

    constructor (nodes: seq<seq<string>>)
      ensures Valid() && |partitions| == |nodes|
      ensures forall p :: 0 <= p < |nodes| ==>
        partitions[p] == PartitionView(-1, seq(|nodes[p]|, i requires 0 <= i < |nodes[p]| => NodeView(nodes[p][i], false)))
    {
      partitions := seq(|nodes|, p requires 0 <= p < |nodes| =>
        PartitionView(-1, seq(|nodes[p]|, i requires 0 <= i < |nodes[p]| => NodeView(nodes[p][i], false))));
    }

    /** The answer to a node that asks: no address and no nodes while the primary is unknown. */
    method GetPartitionPrimary(idx: nat) returns (code: Code, addr: string, nodes: seq<NodeView>)
      requires Valid()
      ensures code == if idx < |partitions| then OK else INVALID_ARGUMENT
      ensures code == OK && partitions[idx].primaryIdx == -1 ==> addr == "" && nodes == []
      ensures code == OK && partitions[idx].primaryIdx != -1 ==>
        addr == partitions[idx].nodes[partitions[idx].primaryIdx].addr && nodes == partitions[idx].nodes
    {
      if idx >= |partitions| {
        return INVALID_ARGUMENT, "", [];
      }
      var part := partitions[idx];
      if part.primaryIdx == -1 {
        return OK, "", [];
      }
      code, addr, nodes := OK, part.nodes[part.primaryIdx].addr, part.nodes;
    }

    /** Every node is asked; health holds the outcomes. */
    method CheckNodes(health: seq<seq<bool>>)
      requires Valid() && |health| == |partitions|
      requires forall p :: 0 <= p < |partitions| ==> |health[p]| == |partitions[p].nodes|
      modifies this
      ensures Valid() && |partitions| == |old(partitions)|
      ensures forall p :: 0 <= p < |partitions| ==>
        partitions[p] == old(partitions)[p].(nodes := Checked(old(partitions)[p].nodes, health[p]))
    {
      ghost var before := partitions;
      var p := 0;
      while p < |partitions|
        invariant 0 <= p <= |partitions| == |before|
        invariant forall k :: 0 <= k < p ==> partitions[k] == before[k].(nodes := Checked(before[k].nodes, health[k]))
        invariant forall k :: p <= k < |partitions| ==> partitions[k] == before[k]
      {
        var nodes := partitions[p].nodes;
        var i := 0;
        while i < |nodes|
          invariant 0 <= i <= |nodes| == |before[p].nodes|
          invariant forall k :: 0 <= k < |nodes| ==>
            nodes[k] == if k < i then before[p].nodes[k].(alive := health[p][k]) else before[p].nodes[k]
        {
          nodes := nodes[i := nodes[i].(alive := health[p][i])];
          i := i + 1;
        }
        assert nodes == Checked(before[p].nodes, health[p]);
        partitions := partitions[p := partitions[p].(nodes := nodes)];
        p := p + 1;
      }
    }

    /** The choice for one partition, from the flags of the round. */
    static method Appoint(part: PartitionView, ghost before: PartitionView, ghost health: seq<bool>)
      returns (next: PartitionView, announced: Option<string>)
      requires InRange(before) && |health| == |before.nodes|
      requires part == before.(nodes := Checked(before.nodes, health))
      ensures next == Round(before, health) && announced == Announcement(before, health)
    {
      if part.primaryIdx != -1 && part.nodes[part.primaryIdx].alive {
        return part, None;
      }
      var i := 0;
      while i < |part.nodes| && !part.nodes[i].alive
        invariant 0 <= i <= |part.nodes|
        invariant forall k :: 0 <= k < i ==> !health[k]
      {
        i := i + 1;
      }
      if i == |part.nodes| {
        return part.(primaryIdx := -1), None;
      }
      next, announced := part.(primaryIdx := i), Some(part.nodes[i].addr);
    }

    /** One round: every node is checked, then each partition whose primary is unknown or failed its check
        gets a new one; announced holds the updates sent. */
    method DoHealthcheck(health: seq<seq<bool>>) returns (announced: seq<Option<string>>)
      requires Valid() && |health| == |partitions|
      requires forall p :: 0 <= p < |partitions| ==> |health[p]| == |partitions[p].nodes|
      modifies this
      ensures Valid() && |partitions| == |old(partitions)| == |announced|
      ensures forall p :: 0 <= p < |partitions| ==>
        && partitions[p] == Round(old(partitions)[p], health[p])
        && announced[p] == Announcement(old(partitions)[p], health[p])
    {
      hide Checked, Round, Announcement;
      ghost var before := partitions;
      CheckNodes(health);
      announced := [];
      var p := 0;
      while p < |partitions|
        invariant 0 <= p <= |partitions| == |before| && |announced| == p
        invariant forall k :: 0 <= k < p ==>
          partitions[k] == Round(before[k], health[k]) && announced[k] == Announcement(before[k], health[k])
        invariant forall k :: p <= k < |partitions| ==>
          partitions[k] == before[k].(nodes := Checked(before[k].nodes, health[k]))
      {
        var next, update := Appoint(partitions[p], before[p], health[p]);
        partitions := partitions[p := next];
        announced := announced + [update];
        p := p + 1;
      }
      forall k | 0 <= k < |partitions| ensures InRange(partitions[k]) {
        RoundInRange(before[k], health[k]);
      }
    }
  }

  lemma RoundInRange(part: PartitionView, health: seq<bool>)
    requires InRange(part) && |health| == |part.nodes|
    ensures InRange(Round(part, health))
  {
  }

  // ---- the appointed primary over any run of rounds ----

  /** The primary is -1 exactly when no node passed its last check, and otherwise names one that did. */
  predicate PrimaryAlive(part: PartitionView) {
    && InRange(part)
    && (part.primaryIdx == -1 <==> forall i :: 0 <= i < |part.nodes| ==> !part.nodes[i].alive)
    && (part.primaryIdx != -1 ==> part.nodes[part.primaryIdx].alive)
  }

  function Rounds(part: PartitionView, healths: seq<seq<bool>>): (r: PartitionView)
    requires InRange(part) && forall k :: 0 <= k < |healths| ==> |healths[k]| == |part.nodes|
    ensures InRange(r) && |r.nodes| == |part.nodes|
    decreases |healths|
  {
    if healths == [] then part else Rounds(Round(part, healths[0]), healths[1..])
  }

  lemma RoundKeepsPrimaryAlive(part: PartitionView, health: seq<bool>)
    requires InRange(part) && |health| == |part.nodes|
    ensures PrimaryAlive(Round(part, health))
    ensures Round(part, health).primaryIdx != part.primaryIdx ==>
            part.primaryIdx == -1 || !health[part.primaryIdx]
    ensures Round(part, health).primaryIdx != part.primaryIdx ==>
            forall j :: 0 <= j < Round(part, health).primaryIdx ==> !health[j]
    ensures var p := Round(part, health).primaryIdx;
            var told := Announcement(part, health);
            && (told.Some? <==> p != -1 && (part.primaryIdx == -1 || !health[part.primaryIdx]))
            && (told.Some? ==> told.value == part.nodes[p].addr)
  {
    var next := Round(part, health);
    assert forall i :: 0 <= i < |health| ==> next.nodes[i].alive == health[i];
  }

  lemma {:induction false} PrimaryAliveAlways(part: PartitionView, healths: seq<seq<bool>>)
    requires PrimaryAlive(part) && forall k :: 0 <= k < |healths| ==> |healths[k]| == |part.nodes|
    ensures PrimaryAlive(Rounds(part, healths))
    decreases |healths|
  {
    if healths == [] {
    } else {
      RoundKeepsPrimaryAlive(part, healths[0]);
      PrimaryAliveAlways(Round(part, healths[0]), healths[1..]);
    }
  }

  // ---- what the nodes believe ----

  datatype View = Unknown | Known(node: nat)

  /** Disabled by an administrator: the process keeps its view. Gone: the process has ended. */
  datatype Standing = Up | Disabled | Gone

  datatype Proc = Proc(standing: Standing, view: View)

  /** last: the node most recently appointed. */
  datatype Cluster = Cluster(part: PartitionView, procs: seq<Proc>, last: View)

  datatype Event =
    | HealthRound(health: seq<bool>, delivered: seq<bool>)
    | Stop(i: nat)
    | Start(i: nat, masterReached: bool)
    | Ask(i: nat)
    | Disable(i: nat)
    | Enable(i: nat)

  /** What the master answers a node that asks. */
  function MasterView(c: Cluster): View {
    if c.part.primaryIdx < 0 then Unknown else Known(c.part.primaryIdx)
  }

  /** A round may fail any node; only a node that is up can pass. */
  predicate Possible(c: Cluster, e: Event) {
    match e
    case HealthRound(health, delivered) =>
      && InRange(c.part) && |health| == |delivered| == |c.part.nodes| == |c.procs|
      && forall i :: 0 <= i < |health| && health[i] ==> c.procs[i].standing.Up?
    case Stop(i) => i < |c.procs| && !c.procs[i].standing.Gone?
    case Start(i, _) => i < |c.procs| && c.procs[i].standing.Gone?
    case Ask(i) => i < |c.procs| && c.procs[i].standing.Up? && c.procs[i].view.Unknown?
    case Disable(i) => i < |c.procs| && c.procs[i].standing.Up?
    case Enable(i) => i < |c.procs| && c.procs[i].standing.Disabled?
  }

  function After(c: Cluster, e: Event): (c': Cluster)
    requires Possible(c, e)
    ensures |c'.procs| == |c.procs|
  {
    match e
    case HealthRound(health, delivered) =>
      var part := Round(c.part, health);
      if !Appoints(c.part.primaryIdx, health) then c.(part := part)
      else
        var p := part.primaryIdx;
        Cluster(part, seq(|c.procs|, i requires 0 <= i < |c.procs| =>
                  if c.procs[i].standing.Up? && delivered[i] then Proc(Up, Known(p)) else c.procs[i]), Known(p))
    case Stop(i) => c.(procs := c.procs[i := Proc(Gone, Unknown)])
    case Start(i, masterReached) =>
      c.(procs := c.procs[i := Proc(Up, if masterReached then MasterView(c) else Unknown)])
    case Ask(i) => c.(procs := c.procs[i := Proc(Up, MasterView(c))])
    case Disable(i) => c.(procs := c.procs[i := Proc(Disabled, c.procs[i].view)])
    case Enable(i) => c.(procs := c.procs[i := Proc(Up, c.procs[i].view)])
  }

  /** Every update reaches every node that later serves: those that are up when it is sent, and no node is
      enabled again with a view that a later appointment has overtaken. */
  predicate UpdatesReach(c: Cluster, e: Event)
    requires Possible(c, e)
  {
    match e
    case HealthRound(health, delivered) =>
      Appoints(c.part.primaryIdx, health) ==> forall i :: 0 <= i < |c.procs| && c.procs[i].standing.Up? ==> delivered[i]
    case Enable(i) => c.procs[i].view in {Unknown, c.last}
    case _ => true
  }

  predicate ViewsAgree(c: Cluster) {
    && InRange(c.part) && |c.procs| == |c.part.nodes|
    && (c.part.primaryIdx >= 0 ==> c.last == Known(c.part.primaryIdx))
    && forall i :: 0 <= i < |c.procs| && c.procs[i].standing.Up? ==> c.procs[i].view in {Unknown, c.last}
  }

  predicate Believes(c: Cluster, i: nat) {
    i < |c.procs| && c.procs[i].standing.Up? && c.procs[i].view == Known(i)
  }

  predicate Safe(c: Cluster, events: seq<Event>)
    decreases |events|
  {
    events == [] || (Possible(c, events[0]) && UpdatesReach(c, events[0]) && Safe(After(c, events[0]), events[1..]))
  }

  function End(c: Cluster, events: seq<Event>): (e: Cluster)
    requires Safe(c, events)
    ensures |e.procs| == |c.procs|
    decreases |events|
  {
    if events == [] then c else End(After(c, events[0]), events[1..])
  }

  lemma AfterViewsAgree(c: Cluster, e: Event)
    requires ViewsAgree(c) && Possible(c, e) && UpdatesReach(c, e)
    ensures ViewsAgree(After(c, e))
  {
  }

  lemma {:induction false} ViewsAgreeAlways(c: Cluster, events: seq<Event>)
    requires ViewsAgree(c) && Safe(c, events)
    ensures ViewsAgree(End(c, events))
    decreases |events|
  {
    if events == [] {
    } else {
      AfterViewsAgree(c, events[0]);
      ViewsAgreeAlways(After(c, events[0]), events[1..]);
    }
  }

  /** At most one serving node believes it is primary. */
  lemma AtMostOnePrimary(c: Cluster, events: seq<Event>, i: nat, j: nat)
    requires ViewsAgree(c) && Safe(c, events)
    requires Believes(End(c, events), i) && Believes(End(c, events), j)
    ensures i == j
  {
    ViewsAgreeAlways(c, events);
  }

  // The view a node acts on when a write arrives: it asks the master first if it has none.
  function ActingView(c: Cluster, i: nat): View
    requires i < |c.procs|
  {
    if c.procs[i].view.Unknown? then MasterView(c) else c.procs[i].view
  }

  /** In those runs every serving node acts on the primary that the master names, as long as it names one. */
  lemma ActsOnThePrimary(c: Cluster, events: seq<Event>, i: nat)
    requires ViewsAgree(c) && Safe(c, events)
    requires i < |c.procs| && End(c, events).procs[i].standing.Up? && End(c, events).part.primaryIdx >= 0
    ensures ActingView(End(c, events), i) == Known(End(c, events).part.primaryIdx)
  {
    ViewsAgreeAlways(c, events);
  }

  /** A node that asks, or starts and reaches the master, believes what the master does. */
  lemma AskedIsBelieved(c: Cluster, i: nat, e: Event)
    requires Possible(c, e) && (e == Ask(i) || e == Start(i, true))
    ensures After(c, e).procs[i].standing.Up?
    ensures c.part.primaryIdx >= 0 ==> After(c, e).procs[i].view == Known(c.part.primaryIdx)
    ensures c.part.primaryIdx < 0 ==> After(c, e).procs[i].view == Unknown
  {
  }

  /** An appointment that reaches every serving node is what each of them believes: the node appointed of itself. */
  lemma AppointmentIsBelieved(c: Cluster, health: seq<bool>, delivered: seq<bool>)
    requires ViewsAgree(c) && Possible(c, HealthRound(health, delivered)) && UpdatesReach(c, HealthRound(health, delivered))
    requires Appoints(c.part.primaryIdx, health)
    ensures var c' := After(c, HealthRound(health, delivered));
            var p := c'.part.primaryIdx;
            && 0 <= p < |c'.procs| && health[p] && Believes(c', p)
            && forall i :: 0 <= i < |c'.procs| && c'.procs[i].standing.Up? ==> c'.procs[i].view == Known(p)
  {
    RoundKeepsPrimaryAlive(c.part, health);
  }

  /** A write takes at most one forward: the node it is forwarded to, if it is up, commits it or refuses it. */
  lemma AtMostOneForward(c: Cluster, events: seq<Event>, i: nat)
    requires ViewsAgree(c) && Safe(c, events)
    requires i < |End(c, events).procs| && End(c, events).procs[i].standing.Up?
    ensures var e := End(c, events);
            match ActingView(e, i)
            case Unknown => true
            case Known(p) => p < |e.procs| && e.procs[p].standing.Up? ==> ActingView(e, p) in {Known(p), Unknown}
  {
    ViewsAgreeAlways(c, events);
  }

  /** Enabling a node keeps the views in agreement exactly when no other appointment has overtaken its view. */
  lemma EnableIffNotOvertaken(c: Cluster, i: nat)
    requires ViewsAgree(c) && Possible(c, Enable(i))
    ensures ViewsAgree(After(c, Enable(i))) <==> c.procs[i].view in {Unknown, c.last}
  {
    assert After(c, Enable(i)).procs[i] == Proc(Up, c.procs[i].view);
    if c.procs[i].view in {Unknown, c.last} {
      AfterViewsAgree(c, Enable(i));
    }
  }

  // ---- exactly when enabling a node breaks what the runs promise ----

  ghost predicate OneBeliever(c: Cluster) {
    forall i, j :: Believes(c, i) && Believes(c, j) ==> i == j
  }

  predicate IsUp(c: Cluster, i: nat) {
    i < |c.procs| && c.procs[i].standing.Up?
  }

  /** Node p, handed a write by a node that takes it for the primary, hands it on. */
  predicate HandsOn(c: Cluster, p: nat) {
    IsUp(c, p) && ActingView(c, p) !in {Known(p), Unknown}
  }

  ghost predicate OneForward(c: Cluster) {
    forall k: nat, p: nat :: IsUp(c, k) && ActingView(c, k) == Known(p) ==> !HandsOn(c, p)
  }

  /** A second believer: the enabled node kept the view that it is primary, and another serving node has it too. */
  lemma EnableIffOneBeliever(c: Cluster, i: nat)
    requires OneBeliever(c) && Possible(c, Enable(i))
    ensures OneBeliever(After(c, Enable(i))) <==>
            !(c.procs[i].view == Known(i) && exists j: nat :: j != i && Believes(c, j))
  {
    var c' := After(c, Enable(i));
    assert forall j: nat :: j != i ==> (Believes(c', j) <==> Believes(c, j));
    assert Believes(c', i) <==> c.procs[i].view == Known(i);
  }

  /** A second forward: the node that the enabled one takes for the primary hands writes on, or a serving node takes
      the enabled one for the primary and it hands them on. */
  lemma EnableIffOneForward(c: Cluster, i: nat)
    requires OneForward(c) && Possible(c, Enable(i))
    ensures OneForward(After(c, Enable(i))) <==>
            && (forall p: nat :: p != i && ActingView(c, i) == Known(p) ==> !HandsOn(c, p))
            && (forall k: nat :: IsUp(c, k) && ActingView(c, k) == Known(i) ==> ActingView(c, i) in {Known(i), Unknown})
  {
    var c' := After(c, Enable(i));
    assert forall k: nat :: k < |c.procs| ==> ActingView(c', k) == ActingView(c, k);
    assert forall k: nat :: k != i ==> (IsUp(c', k) <==> IsUp(c, k));
    assert forall p: nat :: p != i ==> (HandsOn(c', p) <==> HandsOn(c, p));
    assert IsUp(c', i) && !IsUp(c, i);
  }

  // ---- the same over runs: from disabling a node to enabling it ----

  /** In the run a round appoints node j. */
  predicate AppointedIn(c: Cluster, events: seq<Event>, j: nat)
    requires Safe(c, events)
    decreases |events|
  {
    events != [] &&
    (|| (events[0].HealthRound? && Appoints(c.part.primaryIdx, events[0].health) && After(c, events[0]).last == Known(j))
     || AppointedIn(After(c, events[0]), events[1..], j))
  }

  /** Nobody ends or enables the node; while it is disabled nothing else can happen to it. */
  predicate LeavesAlone(events: seq<Event>, i: nat) {
    forall k :: 0 <= k < |events| ==> events[k] != Stop(i) && events[k] != Enable(i)
  }

  lemma {:induction false} StaysDisabled(c: Cluster, events: seq<Event>, i: nat)
    requires Safe(c, events) && LeavesAlone(events, i) && i < |c.procs| && c.procs[i].standing.Disabled?
    ensures i < |End(c, events).procs| && End(c, events).procs[i] == c.procs[i]
    ensures !AppointedIn(c, events, i)
    decreases |events|
  {
    if events == [] {
    } else {
      var c' := After(c, events[0]);
      assert c'.procs[i] == c.procs[i] && events[0] != Stop(i) && events[0] != Enable(i);
      StaysDisabled(c', events[1..], i);
    }
  }

  lemma {:induction false} LastIsAppointedIn(c: Cluster, events: seq<Event>)
    requires Safe(c, events)
    ensures var last := End(c, events).last;
            last == c.last || (last.Known? && AppointedIn(c, events, last.node))
    decreases |events|
  {
    if events == [] {
    } else {
      LastIsAppointedIn(After(c, events[0]), events[1..]);
    }
  }

  /** Disable a node, let anything happen to the others, enable it: two nodes believe they are primary exactly when it
      believed so when it was disabled and another node, appointed in between, still serves and believes so. */
  lemma ReenabledIffOneBeliever(c: Cluster, i: nat, between: seq<Event>)
    requires ViewsAgree(c) && Possible(c, Disable(i))
    requires Safe(After(c, Disable(i)), between) && LeavesAlone(between, i)
    ensures var d := After(c, Disable(i));
            var e := End(d, between);
            && Possible(e, Enable(i))
            && (OneBeliever(After(e, Enable(i))) <==>
                !(Believes(c, i) && exists j: nat :: j != i && AppointedIn(d, between, j) && Believes(e, j)))
  {
    var d := After(c, Disable(i));
    var e := End(d, between);
    ViewsAgreeAlways(d, between);
    StaysDisabled(d, between, i);
    LastIsAppointedIn(d, between);
    EnableIffOneBeliever(e, i);
    hide Safe, End, AppointedIn, OneBeliever;
    forall j: nat | j != i && Believes(c, i) && Believes(e, j) ensures AppointedIn(d, between, j) {
      assert e.last == Known(j) && d.last == Known(i);
    }
  }

  /** And a write then takes two forwards exactly when the node that the enabled one took for the primary serves and
      acts on another node, appointed in between. */
  lemma ReenabledIffOneForward(c: Cluster, i: nat, between: seq<Event>)
    requires ViewsAgree(c) && Possible(c, Disable(i))
    requires Safe(After(c, Disable(i)), between) && LeavesAlone(between, i)
    ensures var d := After(c, Disable(i));
            var e := End(d, between);
            && Possible(e, Enable(i))
            && (OneForward(After(e, Enable(i))) <==>
                !exists p: nat, q: nat :: p != i && q != p && c.procs[i].view == Known(p) && IsUp(e, p)
                                          && ActingView(e, p) == Known(q) && AppointedIn(d, between, q))
  {
    var d := After(c, Disable(i));
    var e := End(d, between);
    ViewsAgreeAlways(d, between);
    StaysDisabled(d, between, i);
    LastIsAppointedIn(d, between);
    EnableIffOneForward(e, i);
    hide Safe, End, AppointedIn, OneForward;
    assert c.procs[i].view in {Unknown, c.last} && d.last == c.last && e.procs[i].view == c.procs[i].view;
    forall p: nat | p != i && ActingView(e, i) == Known(p) && HandsOn(e, p)
      ensures c.procs[i].view == Known(p) && e.last.Known? && e.last.node != p
              && ActingView(e, p) == e.last && AppointedIn(d, between, e.last.node)
    {
    }
  }

  /** The failing run: a primary is disabled, another is appointed, the first is enabled again. Both believe. */
  lemma DisableAppointEnable(a: string, b: string)
    ensures var nodes := [NodeView(a, false), NodeView(b, false)];
            var c0 := Cluster(PartitionView(-1, nodes), [Proc(Up, Unknown), Proc(Up, Unknown)], Unknown);
            && ViewsAgree(c0)
            && var first, second := HealthRound([true, true], [true, true]), HealthRound([false, true], [false, true]);
            && Possible(c0, first)
            && var c1 := After(c0, first);
            && Possible(c1, Disable(0))
            && var c2 := After(c1, Disable(0));
            && Possible(c2, second) && UpdatesReach(c2, second)
            && var c3 := After(c2, second);
            && Possible(c3, Enable(0))
            && Believes(After(c3, Enable(0)), 0) && Believes(After(c3, Enable(0)), 1)
  {
    assert FirstTrue([true, true]) == 0;
    assert FirstTrue([false, true]) == 1 by {
      assert [false, true][1..] == [true];
    }
  }

  /** The other failing run: node 2 is disabled while its primary ends, another is appointed, the old primary
      starts again. Enabled, node 2 forwards to node 0, which forwards to node 1. */
  lemma EnableTakesTwoForwards(a: string, b: string, c: string)
    ensures var nodes := [NodeView(a, false), NodeView(b, false), NodeView(c, false)];
            var c0 := Cluster(PartitionView(-1, nodes), [Proc(Up, Unknown), Proc(Up, Unknown), Proc(Up, Unknown)], Unknown);
            && ViewsAgree(c0)
            && var first := HealthRound([true, true, true], [true, true, true]);
            && var second := HealthRound([false, true, false], [false, true, false]);
            && Possible(c0, first) && UpdatesReach(c0, first)
            && var c1 := After(c0, first);
            && Possible(c1, Disable(2)) && Possible(After(c1, Disable(2)), Stop(0))
            && var c2 := After(After(c1, Disable(2)), Stop(0));
            && Possible(c2, second) && UpdatesReach(c2, second)
            && var c3 := After(c2, second);
            && Possible(c3, Start(0, true))
            && var c4 := After(c3, Start(0, true));
            && Possible(c4, Enable(2))
            && var c5 := After(c4, Enable(2));
            && (forall i :: 0 <= i < 3 ==> c5.procs[i].standing.Up?)
            && ActingView(c5, 2) == Known(0) && ActingView(c5, 0) == Known(1) && ActingView(c5, 1) == Known(1)
  {
    assert FirstTrue([true, true, true]) == 0;
    assert FirstTrue([false, true, false]) == 1 by {
      assert [false, true, false][1..] == [true, false];
    }
  }
}
