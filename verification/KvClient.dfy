// The client library: up to five attempts a call, and what the result says about the store.
module KvClient {
  import opened Tablets

  const ATTEMPTS: nat := 5

  /** One attempt as the network treats it: the request is lost, the reply is lost after the server has
      acted, or both arrive. The client sees an error for the first two. */
  datatype Fate = Lost | ReplyLost | Delivered

  datatype Result = Returned(bytes: nat) | NotFound | NoMatch | Failed

  function CPutCode(t: Tablet, row: string, col: string, v1: string): Code {
    if row == "" || col == "" then INVALID_ARGUMENT else CPutCheck(t, row, col, v1)
  }

  /** What the primary does with a conditional put. */
  function ServeCPut(t: Tablet, row: string, col: string, v1: string, v2: string): (r: (Tablet, Code))
    ensures r.1 == CPutCode(t, row, col, v1)
  {
    var code := CPutCode(t, row, col, v1);
    (if code == OK then DoPut(TouchRow(t, row), row, col, v2) else t, code)
  }

  /** The call: attempts until one decides. */
  function CPutCall(t: Tablet, row: string, col: string, v1: string, v2: string, fates: seq<Fate>): (Tablet, Result)
    decreases |fates|
  {
    if fates == [] then (t, Failed)
    else if fates[0].Lost? then CPutCall(t, row, col, v1, v2, fates[1..])
    else
      var (t', code) := ServeCPut(t, row, col, v1, v2);
      if fates[0].ReplyLost? then CPutCall(t', row, col, v1, v2, fates[1..])
      else
        match code
        case OK => (t', Returned(|v2|))
        case NOT_FOUND => (t', NotFound)
        case FAILED_PRECONDITION => (t', NoMatch)
        case _ => CPutCall(t', row, col, v1, v2, fates[1..])
  }

  class Server {
    var tablet: Tablet

    constructor (t: Tablet)
      ensures tablet == t
    {
      tablet := t;
    }

    method CPut(row: string, col: string, v1: string, v2: string) returns (code: Code)
      modifies this
      ensures (tablet, code) == ServeCPut(old(tablet), row, col, v1, v2)
    {
      code := CPutCode(tablet, row, col, v1);
      if code == OK {
        tablet := DoPut(TouchRow(tablet, row), row, col, v2);
      }
    }
  }

  /** cput as the client runs it, on the fates of its five attempts. */
  method CPut(server: Server, row: string, col: string, v1: string, v2: string, fates: seq<Fate>)
    returns (result: Result)
    requires |fates| == ATTEMPTS
    modifies server
    ensures (server.tablet, result) == CPutCall(old(server.tablet), row, col, v1, v2, fates)
  {
    hide ServeCPut, CPutCode;
    var i := 0;
    while i < ATTEMPTS
      invariant 0 <= i <= ATTEMPTS
      invariant CPutCall(old(server.tablet), row, col, v1, v2, fates) == CPutCall(server.tablet, row, col, v1, v2, fates[i..])
    {
      assert fates[i..][1..] == fates[i + 1..];
      if fates[i].Lost? {
        i := i + 1;
        continue;
      }
      var code := server.CPut(row, col, v1, v2);
      if fates[i].ReplyLost? {
        i := i + 1;
        continue;
      }
      match code
      case OK =>
        return Returned(|v2|);
      case NOT_FOUND =>
        return NotFound;
      case FAILED_PRECONDITION =>
        return NoMatch;
      case _ =>
      i := i + 1;
    }
    result := Failed;
  }

  /** The first attempt that reaches the server. */
  function FirstReaching(fates: seq<Fate>): Fate {
    if fates == [] then Lost else if fates[0].Lost? then FirstReaching(fates[1..]) else fates[0]
  }

  /** The result tells the truth when it reports success exactly if the put took place. */
  predicate Truthful(t: Tablet, row: string, col: string, after: Tablet, result: Result, v2: string) {
    if result.Returned? then result.bytes == |v2| && after == DoPut(TouchRow(t, row), row, col, v2) else after == t
  }

  // Once the value has been replaced, no further attempt with the old value succeeds.
  lemma {:induction false} RetryAfterReplaced(t: Tablet, row: string, col: string, v1: string, v2: string, fates: seq<Fate>)
    requires v1 != v2 && Cell(t, row, col) == Some(v2) && row != "" && col != ""
    ensures CPutCall(t, row, col, v1, v2, fates) == (t, if FirstDelivered(fates) then NoMatch else Failed)
    decreases |fates|
  {
    if fates == [] {
    } else {
      RetryAfterReplaced(t, row, col, v1, v2, fates[1..]);
    }
  }

  predicate FirstDelivered(fates: seq<Fate>) {
    fates != [] && (fates[0].Delivered? || FirstDelivered(fates[1..]))
  }

  /** The exception for each refusal; an invalid request is tried again until the attempts are used up. */
  function Refusal(code: Code): Result {
    if code == NOT_FOUND then NotFound else if code == FAILED_PRECONDITION then NoMatch else Failed
  }

  // A refused request is refused the same way again, and changes nothing.
  lemma {:induction false} RetryRefused(t: Tablet, row: string, col: string, v1: string, v2: string, fates: seq<Fate>)
    requires CPutCode(t, row, col, v1) != OK
    ensures CPutCall(t, row, col, v1, v2, fates) ==
            (t, if FirstDelivered(fates) then Refusal(CPutCode(t, row, col, v1)) else Failed)
    decreases |fates|
  {
    if fates == [] {
    } else {
      RetryRefused(t, row, col, v1, v2, fates[1..]);
    }
  }

  /** A conditional put that changes the value tells the truth unless the first attempt to reach the server
      succeeded and its reply was lost: then the put took place and the call reports NoMatch or an error. */
  lemma {:induction false} CPutTruthfulIff(t: Tablet, row: string, col: string, v1: string, v2: string, fates: seq<Fate>)
    requires v1 != v2
    ensures var (after, result) := CPutCall(t, row, col, v1, v2, fates);
            Truthful(t, row, col, after, result, v2) <==> !(FirstReaching(fates).ReplyLost? && CPutCode(t, row, col, v1) == OK)
    decreases |fates|
  {
    if fates == [] {
    } else {
      if fates[0].Lost? {
        CPutTruthfulIff(t, row, col, v1, v2, fates[1..]);
      } else if CPutCode(t, row, col, v1) != OK {
        RetryRefused(t, row, col, v1, v2, fates);
      } else if fates[0].ReplyLost? {
        var t' := DoPut(TouchRow(t, row), row, col, v2);
        RetryAfterReplaced(t', row, col, v1, v2, fates[1..]);
        assert Cell(t', row, col) == Some(v2) && Cell(t, row, col) != Some(v2);
      }
    }
  }

  // ---- what a call answers, by the cell ----

  lemma {:induction false} LostAttempts(t: Tablet, row: string, col: string, v1: string, v2: string, fates: seq<Fate>, k: nat)
    requires k <= |fates| && forall i :: 0 <= i < k ==> fates[i].Lost?
    ensures CPutCall(t, row, col, v1, v2, fates) == CPutCall(t, row, col, v1, v2, fates[k..])
    decreases k
  {
    if k == 0 {
      assert fates[0..] == fates;
    } else {
      LostAttempts(t, row, col, v1, v2, fates[1..], k - 1);
      assert fates[1..][k - 1..] == fates[k..];
    }
  }

  /** When one of the five attempts comes through and none before it has reached the server, the call answers what the
      cell makes of it, whatever is written: not found when a value is expected and none is there, no match when another
      is there, and otherwise the bytes of what it has written. */
  lemma FirstReplyDecides(t: Tablet, row: string, col: string, v1: string, v2: string, fates: seq<Fate>, k: nat)
    requires |fates| == ATTEMPTS && k < 5 && fates[k].Delivered? && (forall i :: 0 <= i < k ==> fates[i].Lost?)
    requires row != "" && col != ""
    ensures var (after, result) := CPutCall(t, row, col, v1, v2, fates);
            var cell := Cell(t, row, col);
            if cell == Some(v1) || (cell == None && v1 == "")
            then && result == Returned(|v2|)
                 && forall r, c :: Cell(after, r, c) == if r == row && c == col then Some(v2) else Cell(t, r, c)
            else after == t && result == if cell == None then NotFound else NoMatch
  {
    LostAttempts(t, row, col, v1, v2, fates, k);
    assert fates[k..][0] == fates[k];
    TouchRowKeepsCells(t, row);
    forall r, c ensures Cell(DoPut(TouchRow(t, row), row, col, v2), r, c) ==
                        if r == row && c == col then Some(v2) else Cell(t, r, c) {
      ApplyCell(TouchRow(t, row), Put(row, col, v2), r, c);
      assert Cell(TouchRow(t, row), r, c) == Cell(t, r, c);
    }
  }

  /** When none of the five is answered the call fails. */
  lemma FiveUnansweredFail(t: Tablet, row: string, col: string, v1: string, v2: string, fates: seq<Fate>)
    requires |fates| == ATTEMPTS && forall i :: 0 <= i < 5 ==> !fates[i].Delivered?
    ensures CPutCall(t, row, col, v1, v2, fates).1 == Failed
  {
    UnansweredFails(t, row, col, v1, v2, fates);
  }

  lemma {:induction false} UnansweredFails(t: Tablet, row: string, col: string, v1: string, v2: string, fates: seq<Fate>)
    requires forall i :: 0 <= i < |fates| ==> !fates[i].Delivered?
    ensures CPutCall(t, row, col, v1, v2, fates).1 == Failed
    decreases |fates|
  {
    if fates == [] {
    } else {
      UnansweredFails(ServeCPut(t, row, col, v1, v2).0, row, col, v1, v2, fates[1..]);
      UnansweredFails(t, row, col, v1, v2, fates[1..]);
    }
  }

  lemma SamePut(t: Tablet, row: string, col: string, v: string)
    requires Cell(t, row, col) == Some(v)
    ensures DoPut(TouchRow(t, row), row, col, v) == t
  {
    assert t[row][col := v] == t[row];
    assert t[row := t[row]] == t;
  }

  // Writing the value that is there again succeeds again and changes nothing.
  lemma {:induction false} RetryOfTheSame(t: Tablet, row: string, col: string, v: string, fates: seq<Fate>)
    requires Cell(t, row, col) == Some(v) && row != "" && col != ""
    ensures CPutCall(t, row, col, v, v, fates) == (t, if FirstDelivered(fates) then Returned(|v|) else Failed)
    decreases |fates|
  {
    if fates == [] {
    } else {
      SamePut(t, row, col, v);
      RetryOfTheSame(t, row, col, v, fates[1..]);
    }
  }

  /** A conditional put of the value it expects tells the truth unless it creates the cell and is never answered. */
  lemma {:induction false} SameValueTruthfulIff(t: Tablet, row: string, col: string, v: string, fates: seq<Fate>)
    ensures var (after, result) := CPutCall(t, row, col, v, v, fates);
            Truthful(t, row, col, after, result, v) <==>
            FirstDelivered(fates) || FirstReaching(fates).Lost? || CPutCode(t, row, col, v) != OK || Cell(t, row, col) == Some(v)
    decreases |fates|
  {
    if fates == [] {
    } else if fates[0].Lost? {
      SameValueTruthfulIff(t, row, col, v, fates[1..]);
    } else if CPutCode(t, row, col, v) != OK {
      RetryRefused(t, row, col, v, v, fates);
    } else {
      var t' := DoPut(TouchRow(t, row), row, col, v);
      assert Cell(t', row, col) == Some(v);
      RetryOfTheSame(t', row, col, v, fates[1..]);
      if Cell(t, row, col) == Some(v) {
        SamePut(t, row, col, v);
      }
    }
  }
}
