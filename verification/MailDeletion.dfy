// Deliveries and deletions by their effect: what each step does to the two lists of a user, and where a deleted id is
// when a run is over.
module MailDeletion {
  import opened Tablets
  import opened Lists
  import opened MailStore

  // A conditional put on what was seen takes place exactly when that is still the text of the cell.
  lemma CheckMeans(cell: Option<string>, seen: string)
    ensures CellCheck(cell, seen) == OK <==> seen == Text(cell)
    ensures CellCheck(cell, seen) == FAILED_PRECONDITION <==> seen != Text(cell) && cell.Some?
    ensures CellCheck(cell, seen) == NOT_FOUND <==> seen != Text(cell) && cell == None
  {
  }

  lemma Appended(cell: Option<string>, us: seq<string>, uid: string, seen: string)
    requires IdList(cell, us) && IsUid(uid)
    ensures CellCheck(cell, seen) == OK <==> seen == Text(cell)
    ensures CellCheck(cell, seen) == FAILED_PRECONDITION <==> seen != Text(cell) && cell.Some?
    ensures seen == Text(cell) ==> IdList(Some(AppendTo(seen, uid)), us + [uid]) && Split(AppendTo(seen, uid), ',') == us + [uid]
  {
    CheckMeans(cell, seen);
    AppendIds(cell, us, uid);
    IdListSplits(Some(AppendTo(Text(cell), uid)), us + [uid]);
  }

  lemma Cut(cell: Option<string>, us: seq<string>, uid: string, seen: string)
    requires IdList(cell, us) && IsUid(uid)
    ensures CellCheck(cell, seen) == OK <==> seen == Text(cell)
    ensures CellCheck(cell, seen) == FAILED_PRECONDITION <==> seen != Text(cell) && cell.Some?
    ensures seen == Text(cell) ==>
              IdList(Some(RemoveUid(seen, uid)), RemoveFirst(us, uid)) && Split(RemoveUid(seen, uid), ',') == RemoveFirst(us, uid)
  {
    CheckMeans(cell, seen);
    RemoveIds(cell, us, uid);
    IdListSplits(Some(RemoveUid(Text(cell), uid)), RemoveFirst(us, uid));
  }

  /** A delivery, on the list as it is read back: it appends its id exactly when the list is still what was seen; a put
      that is refused changes nothing. */
  lemma ArriveEffect(m: Mail, uid: string, seen: string, us: seq<string>)
    requires IdList(m.inbox, us) && IsUid(uid)
    ensures var m' := MailAfter(m, Arrive(uid, seen));
            if seen == Text(m.inbox)
            then Split(Text(m'.inbox), ',') == us + [uid] && IdList(m'.inbox, us + [uid])
                 && m' == m.(inbox := m'.inbox, arrived := m.arrived + multiset{uid})
            else m' == m
  {
    hide AppendTo, IdList, Split, CellCheck;
    Appended(m.inbox, us, uid, seen);
  }

  /** The first half of a deletion removes the first occurrence of the id and puts it in transit. The loop is also over,
      with the list as it was, when the cell is not there to be changed. */
  lemma RemoveEffect(m: Mail, uid: string, seen: string, us: seq<string>)
    requires IdList(m.inbox, us) && IsUid(uid)
    ensures var m' := MailAfter(m, Remove(uid, seen));
            if seen == Text(m.inbox)
            then Split(Text(m'.inbox), ',') == RemoveFirst(us, uid) && IdList(m'.inbox, RemoveFirst(us, uid))
                 && m' == m.(inbox := m'.inbox, transit := m.transit + multiset{uid})
            else m' == if m.inbox.Some? then m else m.(transit := m.transit + multiset{uid})
  {
    hide RemoveUid, IdList, Split, CellCheck;
    Cut(m.inbox, us, uid, seen);
  }

  /** The second half appends it to the deleted list and takes it out of transit. */
  lemma BinEffect(m: Mail, uid: string, seen: string, ws: seq<string>)
    requires IdList(m.trash, ws) && IsUid(uid)
    ensures var m' := MailAfter(m, Bin(uid, seen));
            if seen == Text(m.trash)
            then Split(Text(m'.trash), ',') == ws + [uid] && IdList(m'.trash, ws + [uid])
                 && m' == m.(trash := m'.trash, transit := m.transit - multiset{uid})
            else m' == if m.trash.Some? then m else m.(transit := m.transit - multiset{uid})
  {
    hide AppendTo, IdList, Split, CellCheck;
    Appended(m.trash, ws, uid, seen);
  }

  /** A half that ends without its put changes no list: the deleted id is then in both or in neither. */
  lemma FailuresChangeNoList(m: Mail, uid: string)
    ensures MailAfter(m, RemoveFails(uid)) == m.(transit := m.transit + multiset{uid})
    ensures MailAfter(m, BinFails(uid)) == m.(transit := m.transit - multiset{uid})
  {
  }

  // ---- runs ----

  // The id that a step removes from the inbox, and the one it puts in the deleted list.
  function Cuts(m: Mail, e: MailEvent): seq<string> {
    if e.Remove? && e.seen == Text(m.inbox) then [e.uid] else []
  }

  function Bins(m: Mail, e: MailEvent): seq<string> {
    if e.Bin? && e.seen == Text(m.trash) then [e.uid] else []
  }

  /** The ids removed in a run, and those put in the deleted list, in order. */
  function Removed(m: Mail, events: seq<MailEvent>): seq<string>
    decreases |events|
  {
    if events == [] then [] else Cuts(m, events[0]) + Removed(MailAfter(m, events[0]), events[1..])
  }

  function Binned(m: Mail, events: seq<MailEvent>): seq<string>
    decreases |events|
  {
    if events == [] then [] else Bins(m, events[0]) + Binned(MailAfter(m, events[0]), events[1..])
  }

  lemma StepKeepsCount(m: Mail, e: MailEvent, ws: seq<string>)
    requires IdLists(m) && IdList(m.trash, ws) && MailCan(m, e) && AccountedFor(m, e)
    ensures var m' := MailAfter(m, e);
            && IdLists(m') && IdList(m'.trash, ws + Bins(m, e))
            && m'.transit + multiset(Bins(m, e)) == m.transit + multiset(Cuts(m, e))
  {
    hide MailAfter, Total, IdList, Split, CellCheck, Text, RemoveFirst;
    StepConservesIff(m, e);
    var us :| IdList(m.inbox, us);
    CheckMeans(m.inbox, if e.Remove? then e.seen else "");
    CheckMeans(m.trash, if e.Bin? then e.seen else "");
    hide IdLists;
    assert ws + [] == ws;
    if e.Arrive? {
      ArriveEffect(m, e.uid, e.seen, us);
    } else if e.Remove? {
      RemoveEffect(m, e.uid, e.seen, us);
    } else {
      BinEffect(m, e.uid, e.seen, ws);
      assert m.transit - multiset{e.uid} + multiset{e.uid} == m.transit;
    }
  }

  /** Over any run the deleted list is what it was and then every id that was put there, in that order; and what was
      removed and not yet put there is in transit. */
  lemma {:induction false} RunEffect(m: Mail, events: seq<MailEvent>, ws: seq<string>)
    requires IdLists(m) && IdList(m.trash, ws) && MailRun(m, events)
    ensures IdList(MailEnd(m, events).trash, ws + Binned(m, events))
    ensures MailEnd(m, events).transit + multiset(Binned(m, events)) == m.transit + multiset(Removed(m, events))
    decreases |events|
  {
    hide IdLists, IdList, MailAfter, AccountedFor, Cuts, Bins;
    if events == [] {
      assert ws + [] == ws;
    } else {
      var e, rest := events[0], events[1..];
      var m' := MailAfter(m, e);
      StepKeepsCount(m, e, ws);
      RunEffect(m', rest, ws + Bins(m, e));
      assert ws + Bins(m, e) + Binned(m', rest) == ws + (Bins(m, e) + Binned(m', rest));
      Balance(MailEnd(m', rest).transit, m'.transit, m.transit, Bins(m, e), Cuts(m, e), Binned(m', rest), Removed(m', rest));
    }
  }

  lemma Balance(end: multiset<string>, next: multiset<string>, start: multiset<string>, bin: seq<string>, cut: seq<string>,
                bins: seq<string>, cuts: seq<string>)
    requires end + multiset(bins) == next + multiset(cuts) && next + multiset(bin) == start + multiset(cut)
    ensures end + multiset(bin + bins) == start + multiset(cut + cuts)
  {
    calc {
      end + multiset(bin + bins);
      end + multiset(bins) + multiset(bin);
      next + multiset(bin) + multiset(cuts);
      start + multiset(cut) + multiset(cuts);
    }
  }

  /** A run in which everything removed has been put in the deleted list leaves nothing in transit, and no other does;
      then each removed id is in the deleted list. */
  lemma DeletedEndInTheList(m: Mail, events: seq<MailEvent>, ws: seq<string>)
    requires IdLists(m) && IdList(m.trash, ws) && MailRun(m, events)
    ensures Split(Text(MailEnd(m, events).trash), ',') == ws + Binned(m, events)
    ensures MailEnd(m, events).transit == multiset{} <==> multiset(Binned(m, events)) == m.transit + multiset(Removed(m, events))
    ensures MailEnd(m, events).transit == multiset{} ==>
              forall uid :: uid in Removed(m, events) ==> uid in Split(Text(MailEnd(m, events).trash), ',')
  {
    hide Text, IdLists, IdList, MailRun, Split;
    RunEffect(m, events, ws);
    var end, bin, cut := MailEnd(m, events), Binned(m, events), Removed(m, events);
    IdListSplits(end.trash, ws + bin);
    if multiset(bin) == m.transit + multiset(cut) {
      assert end.transit + multiset(bin) == multiset{} + multiset(bin);
      assert end.transit == (end.transit + multiset(bin)) - multiset(bin);
    }
    if end.transit == multiset{} {
      forall uid | uid in cut ensures uid in ws + bin {
        assert multiset(cut)[uid] > 0;
        assert uid in multiset(bin);
      }
    }
  }

  lemma InboxShare(inbox: multiset<string>, transit: multiset<string>, trash: multiset<string>, came: multiset<string>,
                   cut: multiset<string>, bin: multiset<string>, inbox': multiset<string>, transit': multiset<string>)
    requires inbox' + transit' + (trash + bin) == inbox + transit + trash + came && transit' + bin == transit + cut
    ensures inbox' + cut == inbox + came
  {
    forall u: string ensures (inbox' + cut)[u] == (inbox + came)[u] {
      assert (inbox' + transit' + (trash + bin))[u] == (inbox + transit + trash + came)[u];
      assert (transit' + bin)[u] == (transit + cut)[u];
    }
  }

  /** And the inbox holds what was there and what has arrived, less what was removed. */
  lemma InboxBalance(m: Mail, events: seq<MailEvent>, ws: seq<string>)
    requires IdLists(m) && IdList(m.trash, ws) && MailRun(m, events)
    ensures m.arrived <= MailEnd(m, events).arrived
    ensures Ids(MailEnd(m, events).inbox) + multiset(Removed(m, events)) ==
            Ids(m.inbox) + (MailEnd(m, events).arrived - m.arrived)
  {
    hide Text, IdLists, IdList, MailRun, MailEnd, Removed, Binned, Split;
    IdsConserved(m, events);
    RunEffect(m, events, ws);
    var end, bin, cut := MailEnd(m, events), Binned(m, events), Removed(m, events);
    IdListSplits(m.trash, ws);
    IdListSplits(end.trash, ws + bin);
    assert Ids(end.trash) == Ids(m.trash) + multiset(bin);
    InboxShare(Ids(m.inbox), m.transit, Ids(m.trash), end.arrived - m.arrived, multiset(cut), multiset(bin), Ids(end.inbox), end.transit);
  }
}
