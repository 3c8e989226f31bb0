// Mailboxes: comma-joined lists of message ids in one cell, changed by read, compute, conditional put, retry.
module MailStore {
  import opened Tablets
  import opened Lists
  import opened KvClient

  // ---- one cell ----

  /** The check of a conditional put, for one cell. */
  function CellCheck(cell: Option<string>, v1: string): Code {
    match cell
    case None => if v1 == "" then OK else NOT_FOUND
    case Some(v) => if v == v1 then OK else FAILED_PRECONDITION
  }

  lemma CellCheckIsCPutCheck(t: Tablet, row: string, col: string, v1: string)
    ensures CPutCheck(t, row, col, v1) == CellCheck(Cell(t, row, col), v1)
  {
  }

  /** getdefault with the empty string. */
  function Text(cell: Option<string>): string {
    if cell.Some? then cell.value else ""
  }

  function AppendTo(list: string, uid: string): string {
    if list == "" then uid else list + "," + uid
  }

  predicate Entries(us: seq<string>) {
    forall x :: x in us ==> x != "" && ',' !in x
  }

  lemma JoinIsEmpty(us: seq<string>)
    requires Entries(us)
    ensures Join(us, ',') == "" <==> us == []
  {
    assert us != [] ==> us[0] in us;
  }

  lemma AppendToJoin(us: seq<string>, uid: string)
    requires Entries(us)
    ensures AppendTo(Join(us, ','), uid) == Join(us + [uid], ',')
  {
    JoinIsEmpty(us);
    JoinSnoc(us, uid, ',');
  }

  // ---- one append loop ----

  class SharedCell {
    var value: Option<string>

    constructor (v: Option<string>)
      ensures value == v
    {
      value := v;
    }

    method CPut(v1: string, v2: string) returns (code: Code)
      modifies this
      ensures code == CellCheck(old(value), v1)
      ensures value == if code == OK then Some(v2) else old(value)
    {
      code := CellCheck(value, v1);
      if code == OK {
        value := Some(v2);
      }
    }
  }

  datatype LoopEnd = Done | GaveUp | Retrying

  /** The loop of one appender. In round i it has read seen[i], which may be stale; by the time its conditional
      put arrives, others have made the cell world[i]. */
  method AppendLoop(cell: SharedCell, uid: string, seen: seq<string>, world: seq<Option<string>>)
    returns (end: LoopEnd, round: nat)
    requires |seen| == |world|
    modifies cell
    ensures round <= |seen| && forall i :: 0 <= i < round ==> CellCheck(world[i], seen[i]) == FAILED_PRECONDITION
    ensures end.Retrying? <==> round == |seen|
    ensures end.Done? ==> world[round] in {None, Some(seen[round])} && Text(world[round]) == seen[round]
                          && cell.value == Some(AppendTo(Text(world[round]), uid))
    ensures end.GaveUp? ==> world[round] == None && seen[round] != "" && cell.value == None
    ensures end.Retrying? && round > 0 ==> cell.value == world[round - 1]
    ensures round == 0 && end.Retrying? ==> cell.value == old(cell.value)
  {
    round := 0;
    while round < |seen|
      invariant 0 <= round <= |seen|
      invariant forall i :: 0 <= i < round ==> CellCheck(world[i], seen[i]) == FAILED_PRECONDITION
      invariant cell.value == if round == 0 then old(cell.value) else world[round - 1]
    {
      cell.value := world[round];
      var old_list := seen[round];
      var new_list := if old_list == "" then uid else old_list + "," + uid;
      var code := cell.CPut(old_list, new_list);
      if code == FAILED_PRECONDITION {
        round := round + 1;
        continue;
      }
      return if code == OK then Done else GaveUp, round;
    }
    end := Retrying;
  }

  // ---- any number of append loops ----

  datatype Loop = Trying | Appended | Abandoned

  /** order: whose conditional puts took place, in the order of their commits.
      unheard: those among them whose reply was lost. */
  datatype Box = Box(cell: Option<string>, order: seq<nat>, loops: seq<Loop>, unheard: multiset<int>)

  /** A conditional put of loop k on what it last saw; one whose reply is lost, after which the call's further attempts
      are refused and the loop goes on, or all fail and it gives up; a call that fails without having been applied. */
  datatype Event = Attempt(k: nat, seen: string) | ReplyLost(k: nat, seen: string, givesUp: bool) | CallFails(k: nat)

  predicate CanHappen(b: Box, e: Event) {
    e.k < |b.loops| && b.loops[e.k].Trying?
  }

  function After(b: Box, uids: seq<string>, e: Event): Box
    requires CanHappen(b, e) && |uids| == |b.loops|
  {
    match e
    case CallFails(k) => b.(loops := b.loops[k := Abandoned])
    case ReplyLost(k, seen, givesUp) =>
      if CellCheck(b.cell, seen) != OK then b
      else Box(Some(AppendTo(seen, uids[k])), b.order + [k], b.loops[k := if givesUp then Abandoned else Trying],
               b.unheard + multiset{k})
    case Attempt(k, seen) =>
      match CellCheck(b.cell, seen)
      case OK => Box(Some(AppendTo(seen, uids[k])), b.order + [k], b.loops[k := Appended], b.unheard)
      case FAILED_PRECONDITION => b
      case _ => b.(loops := b.loops[k := Abandoned])
  }

  predicate Run(b: Box, uids: seq<string>, events: seq<Event>)
    requires |uids| == |b.loops|
    decreases |events|
  {
    events == [] || (CanHappen(b, events[0]) && Run(After(b, uids, events[0]), uids, events[1..]))
  }

  function End(b: Box, uids: seq<string>, events: seq<Event>): (r: Box)
    requires |uids| == |b.loops| && Run(b, uids, events)
    ensures |r.loops| == |b.loops|
    decreases |events|
  {
    if events == [] then b else End(After(b, uids, events[0]), uids, events[1..])
  }

  /** No put of the run takes place with its reply lost. */
  predicate AllHeard(b: Box, uids: seq<string>, events: seq<Event>)
    requires |uids| == |b.loops| && Run(b, uids, events)
    decreases |events|
  {
    events == [] ||
    (!(events[0].ReplyLost? && CellCheck(b.cell, events[0].seen) == OK) && AllHeard(After(b, uids, events[0]), uids, events[1..]))
  }

  function Picked(uids: seq<string>, order: seq<nat>): (r: seq<string>)
    requires forall i :: 0 <= i < |order| ==> order[i] < |uids|
    ensures |r| == |order| && forall i :: 0 <= i < |order| ==> r[i] == uids[order[i]]
  {
    seq(|order|, i requires 0 <= i < |order| => uids[order[i]])
  }

  predicate HasAppended(b: Box, k: int) {
    0 <= k < |b.loops| && b.loops[k].Appended?
  }

  ghost predicate Counted(b: Box) {
    && (forall i :: 0 <= i < |b.order| ==> b.order[i] < |b.loops|)
    && (forall k :: CountOk(b, k))
  }

  predicate CountOk(b: Box, k: int) {
    multiset(b.order)[k] == b.unheard[k] + if HasAppended(b, k) then 1 else 0
  }

  /** The cell holds the first list and then an id for every put that took place, in commit order: one for each loop
      that succeeded, and one for each put whose reply was lost. */
  ghost predicate Faithful(b: Box, uids: seq<string>, first: seq<string>) {
    && |uids| == |b.loops|
    && Counted(b)
    && Text(b.cell) == Join(first + Picked(uids, b.order), ',')
  }

  lemma PickedEntries(first: seq<string>, uids: seq<string>, order: seq<nat>)
    requires Entries(first) && Entries(uids) && forall i :: 0 <= i < |order| ==> order[i] < |uids|
    ensures Entries(first + Picked(uids, order))
  {
    var list := first + Picked(uids, order);
    forall x | x in list ensures x != "" && ',' !in x {
      if x !in first {
        assert x in Picked(uids, order);
        var i :| 0 <= i < |order| && x == uids[order[i]];
        assert x in uids;
      }
    }
  }

  lemma PickedSnoc(first: seq<string>, uids: seq<string>, order: seq<nat>, k: nat)
    requires k < |uids| && forall i :: 0 <= i < |order| ==> order[i] < |uids|
    ensures first + Picked(uids, order + [k]) == first + Picked(uids, order) + [uids[k]]
  {
  }

  // The box after a put by loop x, or after no put.
  lemma PutCounts(b: Box, cell: Option<string>, x: nat, l: Loop)
    requires Counted(b) && x < |b.loops| && b.loops[x].Trying?
    ensures Counted(Box(cell, b.order + [x], b.loops[x := l], if l.Appended? then b.unheard else b.unheard + multiset{x}))
  {
    var b' := Box(cell, b.order + [x], b.loops[x := l], if l.Appended? then b.unheard else b.unheard + multiset{x});
    forall k ensures CountOk(b', k) {
      assert CountOk(b, k);
      assert HasAppended(b', k) <==> if k == x then l.Appended? else HasAppended(b, k);
    }
  }

  lemma NoPutCounts(b: Box, x: nat)
    requires Counted(b) && x < |b.loops| && b.loops[x].Trying?
    ensures Counted(b.(loops := b.loops[x := Abandoned]))
  {
    var b' := b.(loops := b.loops[x := Abandoned]);
    forall k ensures CountOk(b', k) {
      assert CountOk(b, k);
      assert HasAppended(b', k) <==> HasAppended(b, k);
    }
  }

  lemma StepCounts(b: Box, uids: seq<string>, e: Event)
    requires |uids| == |b.loops| && Counted(b) && CanHappen(b, e)
    ensures Counted(After(b, uids, e))
  {
    hide AppendTo, Counted;
    NoPutCounts(b, e.k);
    if !e.CallFails? {
      var l := if e.Attempt? then Appended else if e.givesUp then Abandoned else Trying;
      PutCounts(b, Some(AppendTo(e.seen, uids[e.k])), e.k, l);
    }
  }

  // A put that takes place, heard or not.
  lemma PutKeeps(b: Box, uids: seq<string>, first: seq<string>, e: Event)
    requires Faithful(b, uids, first) && CanHappen(b, e) && Entries(first) && Entries(uids)
    requires !e.CallFails? && CellCheck(b.cell, e.seen) == OK
    ensures Faithful(After(b, uids, e), uids, first)
  {
    StepCounts(b, uids, e);
    var list := first + Picked(uids, b.order);
    hide Picked, Join, AppendTo, Entries, Counted;
    assert Text(b.cell) == e.seen;
    PickedEntries(first, uids, b.order);
    AppendToJoin(list, uids[e.k]);
    PickedSnoc(first, uids, b.order, e.k);
  }

  lemma AfterKeeps(b: Box, uids: seq<string>, first: seq<string>, e: Event)
    requires Faithful(b, uids, first) && CanHappen(b, e) && Entries(first) && Entries(uids)
    ensures Faithful(After(b, uids, e), uids, first)
  {
    hide Picked, Join, Entries;
    if !e.CallFails? && CellCheck(b.cell, e.seen) == OK {
      PutKeeps(b, uids, first, e);
    } else {
      StepCounts(b, uids, e);
    }
  }

  lemma {:induction false} FaithfulAlways(b: Box, uids: seq<string>, first: seq<string>, events: seq<Event>)
    requires |uids| == |b.loops| && Faithful(b, uids, first) && Run(b, uids, events) && Entries(first) && Entries(uids)
    ensures Faithful(End(b, uids, events), uids, first)
    decreases |events|
  {
    hide Faithful;
    if events == [] {
    } else {
      AfterKeeps(b, uids, first, events[0]);
      FaithfulAlways(After(b, uids, events[0]), uids, first, events[1..]);
    }
  }

  lemma {:induction false} UnheardGrows(b: Box, uids: seq<string>, events: seq<Event>)
    requires |uids| == |b.loops| && Run(b, uids, events)
    ensures |End(b, uids, events).unheard| >= |b.unheard|
    ensures |End(b, uids, events).unheard| == |b.unheard| <==> AllHeard(b, uids, events)
    decreases |events|
  {
    hide AppendTo;
    if events == [] {
    } else {
      UnheardGrows(After(b, uids, events[0]), uids, events[1..]);
    }
  }

  predicate AllDistinct(xs: seq<nat>) {
    forall i, j :: 0 <= i < j < |xs| ==> xs[i] != xs[j]
  }

  lemma {:induction false} DistinctMeansOnce(xs: seq<nat>)
    ensures AllDistinct(xs) <==> forall x :: multiset(xs)[x] <= 1
  {
    if xs == [] {
    } else {
      var init, last := xs[..|xs| - 1], xs[|xs| - 1];
      assert xs == init + [last];
      DistinctMeansOnce(init);
      assert multiset(xs) == multiset(init) + multiset{last};
      assert AllDistinct(xs) <==> AllDistinct(init) && last !in init;
      assert last in init <==> multiset(init)[last] > 0;
      assert forall x :: multiset(xs)[x] == multiset(init)[x] + if x == last then 1 else 0;
    }
  }

  /** Each successful loop's id is in the list once, and no other loop's is. */
  predicate OnceEach(b: Box) {
    AllDistinct(b.order) && forall k :: 0 <= k < |b.loops| ==> (k in b.order <==> b.loops[k].Appended?)
  }

  lemma OnceEachIff(b: Box, uids: seq<string>, first: seq<string>)
    requires Faithful(b, uids, first)
    ensures OnceEach(b) <==> b.unheard == multiset{}
  {
    hide Picked, Join;
    DistinctMeansOnce(b.order);
    assert forall k :: CountOk(b, k);
    if OnceEach(b) {
      forall k ensures b.unheard[k] == 0 {
        assert CountOk(b, k) && multiset(b.order)[k] <= 1 && (multiset(b.order)[k] > 0 <==> k in b.order);
        assert HasAppended(b, k) ==> k in b.order;
      }
      assert b.unheard == multiset{};
    } else if b.unheard == multiset{} {
      assert AllDistinct(b.order) by {
        assert forall k :: CountOk(b, k) ==> multiset(b.order)[k] <= 1;
      }
      forall k | 0 <= k < |b.loops| ensures k in b.order <==> b.loops[k].Appended? {
        assert CountOk(b, k) && multiset(b.order)[k] == (if HasAppended(b, k) then 1 else 0) && (multiset(b.order)[k] > 0 <==> k in b.order);
      }
    }
  }

  /** No lost and no doubled append: whatever the loops saw and however they interleave, the stored list splits
      to what it was and then an id for every put that took place, in commit order. It holds each successful loop's id
      once and no other exactly when no put took place whose reply was lost. */
  lemma NoLostOrDoubledAppend(cell: Option<string>, first: seq<string>, uids: seq<string>, events: seq<Event>)
    requires Entries(first) && Entries(uids) && Text(cell) == Join(first, ',')
    requires Run(Box(cell, [], seq(|uids|, _ => Trying), multiset{}), uids, events)
    ensures var b0 := Box(cell, [], seq(|uids|, _ => Trying), multiset{});
            var b := End(b0, uids, events);
            && (forall i :: 0 <= i < |b.order| ==> b.order[i] < |uids|)
            && Split(Text(b.cell), ',') == first + Picked(uids, b.order)
            && (OnceEach(b) <==> AllHeard(b0, uids, events))
  {
    var b0 := Box(cell, [], seq(|uids|, _ => Trying), multiset{});
    assert first + Picked(uids, []) == first;
    FaithfulAlways(b0, uids, first, events);
    var b := End(b0, uids, events);
    var list := first + Picked(uids, b.order);
    PickedEntries(first, uids, b.order);
    SplitJoin(list, ',');
    assert list != [] ==> list[|list| - 1] in list;
    UnheardGrows(b0, uids, events);
    OnceEachIff(b, uids, first);
  }

  /** In the client's own terms: when the reply to the first attempt is lost, the call reports
      NoMatch, the loop reads again and appends a second time. */
  lemma LostReplyDoublesAppend(t: Tablet, row: string, uid: string, fates: seq<Fate>)
    requires IsUid(uid) && row != "" && Cell(t, row, "inbox") == None
    requires |fates| == 5 && fates[0] == Fate.ReplyLost && fates[1] == Delivered
    ensures var (t1, result1) := CPutCall(t, row, "inbox", "", uid, fates);
            var seen := Text(Cell(t1, row, "inbox"));
            var (t2, result2) := CPutCall(t1, row, "inbox", seen, AppendTo(seen, uid), [Delivered]);
            && result1 == NoMatch && result2.Returned?
            && Split(Text(Cell(t2, row, "inbox")), ',') == [uid, uid]
  {
    var t1 := DoPut(TouchRow(t, row), row, "inbox", uid);
    assert fates[1..][0] == Delivered;
    assert CPutCode(t, row, "inbox", "") == OK;
    RetryAfterReplaced(t1, row, "inbox", "", uid, fates[1..]);
    assert CPutCall(t, row, "inbox", "", uid, fates) == (t1, NoMatch);
    var us := [uid, uid];
    assert us[1..] == [uid];
    assert Join(us, ',') == uid + "," + uid;
    UidListSplits(us);
  }

  // ---- deliveries and deletions on one user's lists ----

  /** transit: ids whose first loop is over and whose second has not yet put them in the deleted list. */
  datatype Mail = Mail(inbox: Option<string>, trash: Option<string>, transit: multiset<string>, arrived: multiset<string>)

  /** Conditional puts on what was last seen: a delivery, the two halves of a deletion; and either half ended by a
      call that fails. The second half runs even when the first has failed. */
  datatype MailEvent =
    | Arrive(uid: string, seen: string)
    | Remove(uid: string, seen: string)
    | RemoveFails(uid: string)
    | Bin(uid: string, seen: string)
    | BinFails(uid: string)

  predicate MailCan(m: Mail, e: MailEvent) {
    IsUid(e.uid) && (e.Bin? || e.BinFails? ==> e.uid in m.transit)
  }

  function MailAfter(m: Mail, e: MailEvent): Mail {
    match e
    case Arrive(uid, seen) =>
      if CellCheck(m.inbox, seen) != OK then m
      else m.(inbox := Some(AppendTo(seen, uid)), arrived := m.arrived + multiset{uid})
    case Remove(uid, seen) =>
      var code := CellCheck(m.inbox, seen);
      if code == FAILED_PRECONDITION then m
      else if code == OK then m.(inbox := Some(RemoveUid(seen, uid)), transit := m.transit + multiset{uid})
      else m.(transit := m.transit + multiset{uid})
    case RemoveFails(uid) => m.(transit := m.transit + multiset{uid})
    case Bin(uid, seen) =>
      var code := CellCheck(m.trash, seen);
      if code == FAILED_PRECONDITION then m
      else if code == OK then m.(trash := Some(AppendTo(seen, uid)), transit := m.transit - multiset{uid})
      else m.(transit := m.transit - multiset{uid})
    case BinFails(uid) => m.(transit := m.transit - multiset{uid})
  }

  function Ids(cell: Option<string>): multiset<string> {
    multiset(Split(Text(cell), ','))
  }

  function Total(m: Mail): multiset<string> {
    Ids(m.inbox) + m.transit + Ids(m.trash)
  }

  ghost predicate IdList(cell: Option<string>, us: seq<string>) {
    AllUids(us) && Text(cell) == Join(us, ',')
  }

  ghost predicate IdLists(m: Mail) {
    (exists us :: IdList(m.inbox, us)) && (exists us :: IdList(m.trash, us))
  }

  /** The step is not a loop ended by an exception, and a removal that commits finds its id in the inbox. */
  predicate AccountedFor(m: Mail, e: MailEvent) {
    match e
    case Arrive(_, _) => true
    case Remove(uid, seen) =>
      CellCheck(m.inbox, seen) != NOT_FOUND && (CellCheck(m.inbox, seen) == OK ==> uid in Split(Text(m.inbox), ','))
    case Bin(_, seen) => CellCheck(m.trash, seen) != NOT_FOUND
    case _ => false
  }

  lemma IdListSplits(cell: Option<string>, us: seq<string>)
    requires IdList(cell, us)
    ensures Split(Text(cell), ',') == us
  {
    forall x | x in us ensures IsUid(x) {
    }
    UidListSplits(us);
  }

  lemma AppendIds(cell: Option<string>, us: seq<string>, uid: string)
    requires IdList(cell, us) && IsUid(uid)
    ensures IdList(Some(AppendTo(Text(cell), uid)), us + [uid])
    ensures Ids(Some(AppendTo(Text(cell), uid))) == Ids(cell) + multiset{uid}
  {
    var cell' := Some(AppendTo(Text(cell), uid));
    forall x | x in us ensures x != "" && ',' !in x {
      assert IsUid(x);
    }
    AppendToJoin(us, uid);
    IdListSplits(cell, us);
    IdListSplits(cell', us + [uid]);
  }

  lemma {:induction false} RemoveFirstMultiset(us: seq<string>, u: string)
    ensures multiset(RemoveFirst(us, u)) == multiset(us) - multiset{u}
  {
    if us == [] {
    } else {
      assert us == [us[0]] + us[1..];
      if us[0] != u {
        RemoveFirstMultiset(us[1..], u);
      }
    }
  }

  lemma RemoveIds(cell: Option<string>, us: seq<string>, uid: string)
    requires IdList(cell, us) && IsUid(uid)
    ensures IdList(Some(RemoveUid(Text(cell), uid)), RemoveFirst(us, uid))
    ensures Ids(Some(RemoveUid(Text(cell), uid))) == Ids(cell) - multiset{uid}
  {
    var cell' := Some(RemoveUid(Text(cell), uid));
    RemoveRefines(us, uid);
    forall i | 0 <= i < |RemoveFirst(us, uid)| ensures IsUid(RemoveFirst(us, uid)[i]) {
      assert RemoveFirst(us, uid)[i] in us;
    }
    IdListSplits(cell, us);
    IdListSplits(cell', RemoveFirst(us, uid));
    RemoveFirstMultiset(us, uid);
  }

  lemma ArriveConserves(m: Mail, uid: string, seen: string)
    requires IdLists(m) && IsUid(uid)
    ensures var m' := MailAfter(m, Arrive(uid, seen));
            && IdLists(m') && m.arrived <= m'.arrived
            && Total(m') == Total(m) + (m'.arrived - m.arrived)
  {
    hide AppendTo, Ids, Join, AllUids;
    if CellCheck(m.inbox, seen) == OK {
      var us :| IdList(m.inbox, us);
      AppendIds(m.inbox, us, uid);
      assert (m.arrived + multiset{uid}) - m.arrived == multiset{uid};
    }
  }

  lemma BinConservesIff(m: Mail, uid: string, seen: string)
    requires IdLists(m) && IsUid(uid) && uid in m.transit
    ensures var m' := MailAfter(m, Bin(uid, seen));
            && IdLists(m') && m'.arrived == m.arrived
            && (Total(m') == Total(m) <==> AccountedFor(m, Bin(uid, seen)))
  {
    hide AppendTo, Ids, Join, AllUids;
    if CellCheck(m.trash, seen) == OK {
      var us :| IdList(m.trash, us);
      AppendIds(m.trash, us, uid);
    } else {
      DropBalance(Ids(m.inbox), uid, m.transit, Ids(m.trash));
    }
  }

  lemma RemoveConservesIff(m: Mail, uid: string, seen: string)
    requires IdLists(m) && IsUid(uid)
    ensures var m' := MailAfter(m, Remove(uid, seen));
            && IdLists(m') && m'.arrived == m.arrived
            && (Total(m') == Total(m) <==> AccountedFor(m, Remove(uid, seen)))
  {
    hide RemoveUid, Split, Join, AllUids, IdList, Ids;
    InIds(m.inbox, uid);
    if CellCheck(m.inbox, seen) == OK {
      var us :| IdList(m.inbox, us);
      RemoveIds(m.inbox, us, uid);
      RemovalBalance(Ids(m.inbox), uid, m.transit, Ids(m.trash));
    } else {
      DropBalance(Ids(m.inbox), uid, m.transit, Ids(m.trash));
    }
  }

  lemma InIds(cell: Option<string>, uid: string)
    ensures uid in Ids(cell) <==> uid in Split(Text(cell), ',')
  {
  }

  // A loop ended by an exception leaves the id in one list too many or one too few.
  lemma FailuresConserveNothing(m: Mail, e: MailEvent)
    requires IdLists(m) && MailCan(m, e) && (e.RemoveFails? || e.BinFails?)
    ensures IdLists(MailAfter(m, e)) && MailAfter(m, e).arrived == m.arrived && Total(MailAfter(m, e)) != Total(m)
  {
    hide Ids, IdList;
    DropBalance(Ids(m.inbox), e.uid, m.transit, Ids(m.trash));
  }

  lemma DropBalance(a: multiset<string>, u: string, b: multiset<string>, c: multiset<string>)
    ensures a + (b + multiset{u}) + c != a + b + c
    ensures u in b ==> a + (b - multiset{u}) + c != a + b + c
  {
    assert (a + (b + multiset{u}) + c)[u] == (a + b + c)[u] + 1;
    assert u in b ==> (a + (b - multiset{u}) + c)[u] + 1 == (a + b + c)[u];
  }

  /** Each step accounts for every id exactly when it is not a loop ended by an exception and, if it is a removal, the
      id is there to be removed. */
  lemma StepConservesIff(m: Mail, e: MailEvent)
    requires IdLists(m) && MailCan(m, e)
    ensures IdLists(MailAfter(m, e)) && m.arrived <= MailAfter(m, e).arrived
    ensures Total(MailAfter(m, e)) == Total(m) + (MailAfter(m, e).arrived - m.arrived) <==> AccountedFor(m, e)
  {
    hide Total, IdLists, Split;
    match e
    case Arrive(uid, seen) => ArriveConserves(m, uid, seen);
    case Remove(uid, seen) => RemoveConservesIff(m, uid, seen);
    case Bin(uid, seen) => BinConservesIff(m, uid, seen);
    case RemoveFails(_) => FailuresConserveNothing(m, e);
    case BinFails(_) => FailuresConserveNothing(m, e);
    assert m.arrived - m.arrived == multiset{};
  }

  lemma RemovalBalance(a: multiset<string>, u: string, b: multiset<string>, c: multiset<string>)
    ensures (a - multiset{u}) + (b + multiset{u}) + c == a + b + c <==> u in a
  {
    if u !in a {
      assert ((a - multiset{u}) + (b + multiset{u}) + c)[u] == b[u] + 1 + c[u];
    }
  }

  ghost predicate MailRun(m: Mail, events: seq<MailEvent>)
    decreases |events|
  {
    events == [] ||
    (MailCan(m, events[0]) && AccountedFor(m, events[0]) && MailRun(MailAfter(m, events[0]), events[1..]))
  }

  function MailEnd(m: Mail, events: seq<MailEvent>): Mail
    decreases |events|
  {
    if events == [] then m else MailEnd(MailAfter(m, events[0]), events[1..])
  }

  /** Conservation: over any interleaving of deliveries and deletions, the ids in the inbox, in transit and in
      the deleted list are those there were and those that have arrived. */
  lemma {:induction false} IdsConserved(m: Mail, events: seq<MailEvent>)
    requires IdLists(m) && MailRun(m, events)
    ensures m.arrived <= MailEnd(m, events).arrived
    ensures Total(MailEnd(m, events)) == Total(m) + (MailEnd(m, events).arrived - m.arrived)
    decreases |events|
  {
    hide Total, IdLists, MailAfter;
    if events == [] {
    } else {
      var m' := MailAfter(m, events[0]);
      StepConservesIff(m, events[0]);
      IdsConserved(m', events[1..]);
      var e := MailEnd(m, events);
      assert (m'.arrived - m.arrived) + (e.arrived - m'.arrived) == e.arrived - m.arrived;
    }
  }
}
