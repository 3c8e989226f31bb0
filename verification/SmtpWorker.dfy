// The reading loop of a connection: bytes in arbitrary chunks, lines out, commands in order.
module SmtpWorker {
  import opened Lists
  import opened SmtpSession

  const MAX_LENGTH: nat := 1000
  const CRLF := "\r\n"

  // ---- lines ----

  /** The complete lines of a byte stream. */
  function Lines(s: string): seq<string>
    decreases |s|
  {
    var i := FindSub(s, CRLF);
    if i < 0 then [] else [s[..i]] + Lines(s[i + 2..])
  }

  /** What is left after them. */
  function Rest(s: string): (r: string)
    ensures |r| <= |s|
    decreases |s|
  {
    var i := FindSub(s, CRLF);
    if i < 0 then s else Rest(s[i + 2..])
  }

  // The first line end stays the first when bytes are added behind it.
  lemma FindSubExtends(a: string, b: string, t: string)
    requires FindSub(a, t) >= 0
    ensures FindSub(a + b, t) == FindSub(a, t)
  {
    var i := FindSub(a, t);
    FindSubFirst(a, t);
    assert (a + b)[i..i + |t|] == a[i..i + |t|];
    forall k | 0 <= k < i ensures !OccursAt(a + b, t, k) {
      assert !OccursAt(a, t, k);
      assert (a + b)[k..k + |t|] == a[k..k + |t|];
    }
    FindSubIs(a + b, t, i);
  }

  lemma {:induction false} FindSubFirst(s: string, t: string)
    requires FindSub(s, t) >= 0
    ensures forall k :: 0 <= k < FindSub(s, t) ==> !OccursAt(s, t, k)
  {
    if FindSub(s, t) > 0 {
      FindSubFirst(s[1..], t);
      forall k | 0 <= k < FindSub(s, t) ensures !OccursAt(s, t, k) {
        if k == 0 {
          assert s[0..|t|] == s[..|t|];
        } else {
          OccursShift(s, t, k - 1);
        }
      }
    }
  }

  lemma UnfoldLines(s: string)
    ensures var i := FindSub(s, CRLF);
            if i < 0 then Lines(s) == [] && Rest(s) == s
            else Lines(s) == [s[..i]] + Lines(s[i + 2..]) && Rest(s) == Rest(s[i + 2..])
  {
  }

  /** Cutting a stream anywhere: the lines of the first part, then those of its rest with the second part. */
  lemma {:induction false} LinesConcat(a: string, b: string)
    ensures Lines(a + b) == Lines(a) + Lines(Rest(a) + b)
    ensures Rest(a + b) == Rest(Rest(a) + b)
    decreases |a|
  {
    hide Lines, Rest, FindSub;
    var i := FindSub(a, CRLF);
    UnfoldLines(a);
    if i >= 0 {
      FindSubExtends(a, b, CRLF);
      UnfoldLines(a + b);
      assert (a + b)[..i] == a[..i] && (a + b)[i + 2..] == a[i + 2..] + b;
      LinesConcat(a[i + 2..], b);
    }
  }

  // ---- the connection ----

  /** stuck: an over-long line is answered again and again and never removed from the buffer. */
  datatype Conn = Conn(session: Session, replies: seq<string>, deliveries: seq<Delivery>, stuck: bool)

  const NEW := Conn(START, [], [], false)

  function DoLine(c: Conn, line: string): Conn {
    if |line| > MAX_LENGTH then c.(replies := c.replies + [ERR_MSG], stuck := true)
    else
      var a := Command(c.session, line);
      Conn(a.next, c.replies + [a.reply], c.deliveries + a.deliveries, false)
  }

  /** The inner loop on the lines of one read. Only in debug mode does it stop at QUIT. */
  function DoLines(c: Conn, lines: seq<string>, debug: bool): Conn
    decreases |lines|
  {
    if lines == [] || c.stuck || (debug && c.session.quit) then c
    else DoLines(DoLine(c, lines[0]), lines[1..], debug)
  }

  /** The outer loop; an empty list of reads is the client closing. */
  function Serve(c: Conn, buffer: string, chunks: seq<string>, debug: bool): Conn
    decreases |chunks|
  {
    if chunks == [] then c
    else
      var input := buffer + chunks[0];
      var c' := DoLines(c, Lines(input), debug);
      if c'.stuck || c'.session.quit then c' else Serve(c', Rest(input), chunks[1..], debug)
  }

  function Flatten(chunks: seq<string>): string {
    if chunks == [] then "" else chunks[0] + Flatten(chunks[1..])
  }

  /** The worker: appends each read to its buffer, takes every complete line, stops after a read with QUIT. */
  method Worker(chunks: seq<string>, debug: bool) returns (c: Conn)
    ensures c == Serve(NEW, "", chunks, debug)
  {
    hide Lines, Rest, DoLine, FindSub;
    c := NEW;
    var buffer := "";
    var n := 0;
    while n < |chunks|
      invariant 0 <= n <= |chunks|
      invariant !c.stuck && !c.session.quit
      invariant Serve(NEW, "", chunks, debug) == Serve(c, buffer, chunks[n..], debug)
    {
      buffer := buffer + chunks[n];
      assert chunks[n..][0] == chunks[n] && chunks[n..][1..] == chunks[n + 1..];
      ghost var input, c0 := buffer, c;
      ghost var done := DoLines(c0, Lines(input), debug);
      var end := FindSub(buffer, CRLF);
      while end != -1
        invariant end == FindSub(buffer, CRLF) && !c.stuck
        invariant done == DoLines(c, Lines(buffer), debug)
        invariant Rest(input) == Rest(buffer)
        decreases |buffer|
      {
        var cmd := buffer[..end];
        UnfoldLines(buffer);
        if debug && c.session.quit {
          return;
        }
        c := DoLine(c, cmd);
        if c.stuck {
          return;
        }
        buffer := buffer[end + 2..];
        end := FindSub(buffer, CRLF);
      }
      UnfoldLines(buffer);
      if c.session.quit {
        return;
      }
      n := n + 1;
    }
  }

  // ---- however the bytes are cut ----

  lemma {:induction false} DoLinesConcat(c: Conn, a: seq<string>, b: seq<string>, debug: bool)
    ensures DoLines(c, a + b, debug) == DoLines(DoLines(c, a, debug), b, debug)
    decreases |a|
  {
    if a == [] {
      assert a + b == b;
    } else if !(c.stuck || (debug && c.session.quit)) {
      DoLinesConcat(DoLine(c, a[0]), a[1..], b, debug);
      assert (a + b)[0] == a[0] && (a + b)[1..] == a[1..] + b;
    }
  }

  lemma FlattenFirst(buffer: string, chunks: seq<string>)
    requires chunks != []
    ensures buffer + Flatten(chunks) == (buffer + chunks[0]) + Flatten(chunks[1..])
  {
  }

  lemma StoppedStays(c: Conn, lines: seq<string>)
    requires c.stuck || c.session.quit
    ensures DoLines(c, lines, true) == c
  {
  }

  // In debug mode the connection does exactly the lines of the stream up to QUIT.
  lemma {:induction false} ServeIsLines(c: Conn, buffer: string, chunks: seq<string>)
    requires Lines(buffer) == [] && Rest(buffer) == buffer
    ensures Serve(c, buffer, chunks, true) == DoLines(c, Lines(buffer + Flatten(chunks)), true)
    decreases |chunks|
  {
    hide Lines, Rest, DoLine, DoLines;
    if chunks == [] {
      assert buffer + Flatten(chunks) == buffer;
      NoLines(c, true);
    } else {
      var input, more := buffer + chunks[0], Flatten(chunks[1..]);
      FlattenFirst(buffer, chunks);
      LinesConcat(input, more);
      var c' := DoLines(c, Lines(input), true);
      DoLinesConcat(c, Lines(input), Lines(Rest(input) + more), true);
      if c'.stuck || c'.session.quit {
        StoppedStays(c', Lines(Rest(input) + more));
      } else {
        RestHasNoLine(input);
        ServeIsLines(c', Rest(input), chunks[1..]);
      }
    }
  }

  lemma NoLines(c: Conn, debug: bool)
    ensures DoLines(c, [], debug) == c
  {
  }

  lemma {:induction false} RestHasNoLine(s: string)
    ensures Lines(Rest(s)) == [] && Rest(Rest(s)) == Rest(s)
    decreases |s|
  {
    var i := FindSub(s, CRLF);
    if i >= 0 {
      RestHasNoLine(s[i + 2..]);
    }
  }

  /** Chunk independence in debug mode: every way of cutting a stream into reads gives the same commands,
      replies, states and deliveries, over-long lines included. */
  lemma ChunkIndependent(a: seq<string>, b: seq<string>)
    requires Flatten(a) == Flatten(b)
    ensures Serve(NEW, "", a, true) == Serve(NEW, "", b, true)
  {
    NothingYet();
    ServeIsLines(NEW, "", a);
    ServeIsLines(NEW, "", b);
  }

  lemma NothingYet()
    ensures Lines("") == [] && Rest("") == ""
  {
  }

  // ---- outside debug mode ----

  /** The lines of a batch left over once the connection has stopped. */
  function Leftover(c: Conn, lines: seq<string>): seq<string>
    decreases |lines|
  {
    if lines == [] || c.stuck then []
    else if c.session.quit then lines
    else Leftover(DoLine(c, lines[0]), lines[1..])
  }

  lemma {:induction false} DoLinesSplit(c: Conn, lines: seq<string>)
    ensures DoLines(c, lines, false) == DoLines(DoLines(c, lines, true), Leftover(c, lines), false)
    ensures Leftover(c, lines) != [] ==> !DoLines(c, lines, true).stuck && DoLines(c, lines, true).session.quit
    ensures !DoLines(c, lines, true).session.quit ==> Leftover(c, lines) == []
    decreases |lines|
  {
    hide DoLine;
    if lines != [] && !c.stuck && !c.session.quit {
      DoLinesSplit(DoLine(c, lines[0]), lines[1..]);
    }
  }

  lemma {:induction false} DoLinesExtends(c: Conn, lines: seq<string>)
    ensures c.replies <= DoLines(c, lines, false).replies
    ensures c.deliveries <= DoLines(c, lines, false).deliveries
    ensures c.session.quit ==> DoLines(c, lines, false).session.quit
    ensures lines != [] && !c.stuck ==> |DoLines(c, lines, false).replies| > |c.replies|
    decreases |lines|
  {
    if lines != [] && !c.stuck {
      var c' := DoLine(c, lines[0]);
      QuitStays(c.session, lines[0]);
      DoLinesExtends(c', lines[1..]);
    }
  }

  lemma QuitStays(s: Session, cmd: string)
    ensures s.quit ==> Command(s, cmd).next.quit
  {
  }

  /** The lines that share a read with the QUIT and come after it. */
  function Overrun(c: Conn, buffer: string, chunks: seq<string>): seq<string>
    decreases |chunks|
  {
    if chunks == [] then []
    else
      var input := buffer + chunks[0];
      var c' := DoLines(c, Lines(input), true);
      if c'.stuck || c'.session.quit then Leftover(c, Lines(input)) else Overrun(c', Rest(input), chunks[1..])
  }

  /** Outside debug mode the connection does everything it does in debug mode, and differs from it exactly when
      more complete lines arrive in the read that holds the QUIT. */
  lemma {:induction false} UpToQuit(c: Conn, buffer: string, chunks: seq<string>)
    requires !c.stuck && !c.session.quit
    ensures var full, upto := Serve(c, buffer, chunks, false), Serve(c, buffer, chunks, true);
            && upto.replies <= full.replies && upto.deliveries <= full.deliveries
            && (full == upto <==> Overrun(c, buffer, chunks) == [])
    decreases |chunks|
  {
    hide Lines, Rest, DoLine, DoLines, Leftover;
    if chunks == [] {
    } else {
      var lines := Lines(buffer + chunks[0]);
      var upto, full := DoLines(c, lines, true), DoLines(c, lines, false);
      DoLinesSplit(c, lines);
      NoLines(upto, false);
      if Leftover(c, lines) == [] {
        if !upto.stuck && !upto.session.quit {
          UpToQuit(upto, Rest(buffer + chunks[0]), chunks[1..]);
        }
      } else {
        DoLinesExtends(upto, Leftover(c, lines));
      }
    }
  }

  /** So up to the first QUIT the reads do not matter outside debug mode either: two cuttings of one stream agree
      when neither read that holds the QUIT holds further lines. */
  lemma ChunkIndependentUpToQuit(a: seq<string>, b: seq<string>)
    requires Flatten(a) == Flatten(b)
    requires Overrun(NEW, "", a) == [] && Overrun(NEW, "", b) == []
    ensures Serve(NEW, "", a, false) == Serve(NEW, "", b, false)
  {
    hide Serve, Overrun;
    UpToQuit(NEW, "", a);
    UpToQuit(NEW, "", b);
    ChunkIndependent(a, b);
  }

  // ---- the loops round by round ----

  /** The worker between two rounds: its buffer, the reads still to come, whether the connection is open. */
  datatype Machine = Machine(c: Conn, buffer: string, chunks: seq<string>, open: bool)

  /** One round of the inner loop, the test after it, or one read. An over-long line is answered and `continue`
      leaves it where it is. */
  function Step(m: Machine, debug: bool): Machine {
    var end := FindSub(m.buffer, CRLF);
    if !m.open then m
    else if end >= 0 && !(debug && m.c.session.quit) then
      if end > MAX_LENGTH then m.(c := m.c.(replies := m.c.replies + [ERR_MSG]))
      else
        var a := Command(m.c.session, m.buffer[..end]);
        m.(c := Conn(a.next, m.c.replies + [a.reply], m.c.deliveries + a.deliveries, false), buffer := m.buffer[end + 2..])
    else if m.c.session.quit || m.chunks == [] then m.(open := false)
    else m.(buffer := m.buffer + m.chunks[0], chunks := m.chunks[1..])
  }

  function Steps(m: Machine, n: nat, debug: bool): Machine {
    if n == 0 then m else Step(Steps(m, n - 1, debug), debug)
  }

  function Errors(n: nat): (r: seq<string>)
    ensures |r| == n && forall i :: 0 <= i < n ==> r[i] == ERR_MSG
  {
    seq(n, i => ERR_MSG)
  }

  /** From here on the loop does nothing but answer: after n rounds n errors have been written and neither the buffer
      nor anything else has changed. */
  ghost predicate Spins(m: Machine, debug: bool) {
    m.open && forall n: nat :: Steps(m, n, debug) == m.(c := m.c.(replies := m.c.replies + Errors(n)))
  }

  predicate AtLongLine(m: Machine, debug: bool) {
    m.open && FindSub(m.buffer, CRLF) > MAX_LENGTH && !(debug && m.c.session.quit)
  }

  lemma {:induction false} LongLineSpinsFor(m: Machine, n: nat, debug: bool)
    requires AtLongLine(m, debug)
    ensures Steps(m, n, debug) == m.(c := m.c.(replies := m.c.replies + Errors(n)))
  {
    hide FindSub;
    if n == 0 {
      assert m.c.replies + Errors(0) == m.c.replies;
    } else {
      LongLineSpinsFor(m, n - 1, debug);
      assert m.c.replies + Errors(n - 1) + [ERR_MSG] == m.c.replies + Errors(n);
    }
  }

  lemma LongLineSpins(m: Machine, debug: bool)
    requires AtLongLine(m, debug)
    ensures Spins(m, debug)
  {
    hide Steps, FindSub;
    forall n: nat ensures Steps(m, n, debug) == m.(c := m.c.(replies := m.c.replies + Errors(n))) {
      LongLineSpinsFor(m, n, debug);
    }
  }

  lemma {:induction false} StepsAdd(m: Machine, a: nat, b: nat, debug: bool)
    ensures Steps(m, a + b, debug) == Steps(Steps(m, a, debug), b, debug)
  {
    hide Step;
    if b == 0 {
    } else {
      StepsAdd(m, a, b - 1, debug);
    }
  }

  lemma OneStep(m: Machine, debug: bool)
    ensures Steps(m, 1, debug) == Step(m, debug)
  {
    assert Steps(m, 0, debug) == m;
  }

  lemma {:induction false} ClosedStays(m: Machine, n: nat, debug: bool)
    requires !m.open
    ensures Steps(m, n, debug) == m
  {
    hide FindSub;
    if n == 0 {
    } else {
      ClosedStays(m, n - 1, debug);
    }
  }

  /** Serve's stuck connection is the machine at an over-long line, its first error written. */
  predicate StuckAs(w: Machine, c: Conn, debug: bool) {
    AtLongLine(w, debug) && c == w.c.(replies := w.c.replies + [ERR_MSG], stuck := true)
  }

  // One round of the inner loop.
  lemma InnerRound(c: Conn, buffer: string, chunks: seq<string>, debug: bool)
    requires !c.stuck
    ensures var end, m, d := FindSub(buffer, CRLF), Machine(c, buffer, chunks, true), DoLines(c, Lines(buffer), debug);
            if end < 0 || (debug && c.session.quit) then d == c && (end < 0 ==> Rest(buffer) == buffer)
            else if end > MAX_LENGTH then StuckAs(m, d, debug) && d.stuck
            else
              var c', tail := DoLine(c, buffer[..end]), buffer[end + 2..];
              Step(m, debug) == Machine(c', tail, chunks, true) && !c'.stuck
              && d == DoLines(c', Lines(tail), debug) && Rest(buffer) == Rest(tail)
  {
    hide Command, FindSub, Lines, Rest;
    UnfoldLines(buffer);
  }

  // The rounds of the inner loop on one buffer.
  lemma {:induction false} InnerRounds(c: Conn, buffer: string, chunks: seq<string>, debug: bool) returns (n: nat)
    requires !c.stuck
    ensures var w, d := Steps(Machine(c, buffer, chunks, true), n, debug), DoLines(c, Lines(buffer), debug);
            && w.chunks == chunks
            && (if d.stuck then StuckAs(w, d, debug)
                else w == Machine(d, w.buffer, chunks, true) && (!(debug && d.session.quit) ==> w.buffer == Rest(buffer)))
    decreases |buffer|
  {
    hide Command, FindSub, Lines, Rest, DoLines, DoLine, Step, StuckAs;
    var m := Machine(c, buffer, chunks, true);
    var end := FindSub(buffer, CRLF);
    InnerRound(c, buffer, chunks, debug);
    n := 0;
    if end < 0 || (debug && c.session.quit) || end > MAX_LENGTH {
    } else {
      OneStep(m, debug);
      n := InnerRounds(DoLine(c, buffer[..end]), buffer[end + 2..], chunks, debug);
      StepsAdd(m, 1, n, debug);
      n := 1 + n;
    }
  }

  // Outside the inner loop: a read, or the end.
  lemma OuterStep(m: Machine, debug: bool)
    requires m.open && (FindSub(m.buffer, CRLF) < 0 || (debug && m.c.session.quit))
    ensures Steps(m, 1, debug) ==
            if m.c.session.quit || m.chunks == [] then m.(open := false)
            else m.(buffer := m.buffer + m.chunks[0], chunks := m.chunks[1..])
  {
    hide Command, FindSub;
    OneStep(m, debug);
  }

  /** The machine does what Serve says: it closes with Serve's result, or comes to the line that Serve is stuck at. */
  lemma {:induction false} ServeIsRun(c: Conn, buffer: string, chunks: seq<string>, debug: bool) returns (n: nat)
    requires !c.stuck && !c.session.quit && FindSub(buffer, CRLF) < 0
    ensures var w, s := Steps(Machine(c, buffer, chunks, true), n, debug), Serve(c, buffer, chunks, debug);
            if s.stuck then StuckAs(w, s, debug) else !w.open && w.c == s
    decreases |chunks|
  {
    hide Command, FindSub, Lines, Rest, DoLines, StuckAs, Step, Steps;
    var m := Machine(c, buffer, chunks, true);
    OuterStep(m, debug);
    n := 1;
    if chunks == [] {
    } else {
      var input, later := buffer + chunks[0], chunks[1..];
      var d := DoLines(c, Lines(input), debug);
      var k := InnerRounds(c, input, later, debug);
      StepsAdd(m, 1, k, debug);
      n := 1 + k;
      if !d.stuck {
        var w := Steps(Machine(c, input, later, true), k, debug);
        RestHasNoEnd(input);
        if d.session.quit {
          OuterStep(w, debug);
          StepsAdd(m, n, 1, debug);
          n := n + 1;
        } else {
          var more := ServeIsRun(d, Rest(input), later, debug);
          StepsAdd(m, n, more, debug);
          n := n + more;
        }
      }
    }
  }

  lemma {:induction false} RestHasNoEnd(s: string)
    ensures FindSub(Rest(s), CRLF) < 0
    decreases |s|
  {
    var i := FindSub(s, CRLF);
    if i < 0 {
    } else {
      RestHasNoEnd(s[i + 2..]);
    }
  }

  /** So the flag means what it says: Serve is stuck exactly when the worker gets to a point from which it does
      nothing but answer an error, round after round. */
  lemma StuckIsForEver(chunks: seq<string>, debug: bool)
    ensures Serve(NEW, "", chunks, debug).stuck <==>
            exists n: nat :: Spins(Steps(Machine(NEW, "", chunks, true), n, debug), debug)
  {
    hide Serve, Steps, AtLongLine, FindSub;
    var m := Machine(NEW, "", chunks, true);
    assert FindSub("", CRLF) < 0 by {
      NothingFound();
    }
    var n := ServeIsRun(NEW, "", chunks, debug);
    var w := Steps(m, n, debug);
    if Serve(NEW, "", chunks, debug).stuck {
      LongLineSpins(w, debug);
    } else if k: nat :| Spins(Steps(m, k, debug), debug) {
      StepsAdd(m, n, k, debug);
      StepsAdd(m, k, n, debug);
      ClosedStays(w, k, debug);
    }
  }

  lemma NothingFound()
    ensures FindSub("", CRLF) < 0
  {
  }

  // ---- which lines make it spin ----

  /** The lines that each read completes. */
  function Batches(buffer: string, chunks: seq<string>): seq<seq<string>>
    decreases |chunks|
  {
    if chunks == [] then [] else [Lines(buffer + chunks[0])] + Batches(Rest(buffer + chunks[0]), chunks[1..])
  }

  function Flat(bs: seq<seq<string>>): seq<string> {
    if bs == [] then [] else bs[0] + Flat(bs[1..])
  }

  /** Together they are the lines of the stream, however it is cut. */
  lemma {:induction false} BatchesAreLines(buffer: string, chunks: seq<string>)
    requires Lines(buffer) == [] && Rest(buffer) == buffer
    ensures Flat(Batches(buffer, chunks)) == Lines(buffer + Flatten(chunks))
    decreases |chunks|
  {
    hide Lines, Rest;
    if chunks == [] {
      assert buffer + Flatten(chunks) == buffer;
    } else {
      var input, more := buffer + chunks[0], Flatten(chunks[1..]);
      FlattenFirst(buffer, chunks);
      LinesConcat(input, more);
      RestHasNoLine(input);
      BatchesAreLines(Rest(input), chunks[1..]);
      assert ([Lines(input)] + Batches(Rest(input), chunks[1..]))[1..] == Batches(Rest(input), chunks[1..]);
    }
  }

  /** Line k is over-long; no line before it is, nor, where QUIT leaves the inner loop, a QUIT. */
  predicate LongAt(before: seq<string>, lines: seq<string>, k: nat, debug: bool) {
    k < |lines| && |lines[k]| > 1000 &&
    forall m :: 0 <= m < k ==> |lines[m]| <= 1000 && !(debug && Quits(before + lines[..m], lines[m]))
  }

  predicate Calm(before: seq<string>, lines: seq<string>) {
    forall m :: 0 <= m < |lines| ==> |lines[m]| <= 1000 && !Quits(before + lines[..m], lines[m])
  }

  /** An over-long line is reached: line k of read b, with neither an over-long line nor a QUIT in an earlier read. */
  ghost predicate LongLineReached(bs: seq<seq<string>>, debug: bool) {
    exists b: nat, k: nat :: LongLineIn(bs, b, k, debug)
  }

  predicate LongLineIn(bs: seq<seq<string>>, b: nat, k: nat, debug: bool) {
    b < |bs| && LongAt(Flat(bs[..b]), bs[b], k, debug) && forall a :: 0 <= a < b ==> Calm(Flat(bs[..a]), bs[a])
  }

  lemma ConsLines(before: seq<string>, lines: seq<string>, k: nat, debug: bool)
    requires lines != []
    ensures LongAt(before, lines, k + 1, debug) <==>
            |lines[0]| <= MAX_LENGTH && !(debug && Quits(before, lines[0])) && LongAt(before + [lines[0]], lines[1..], k, debug)
    ensures Calm(before, lines) <==>
            |lines[0]| <= MAX_LENGTH && !Quits(before, lines[0]) && Calm(before + [lines[0]], lines[1..])
  {
    hide Quits;
    var first, rest := before + [lines[0]], lines[1..];
    assert before + lines[..0] == before;
    forall m | 0 <= m < |rest| ensures lines[m + 1] == rest[m] && before + lines[..m + 1] == first + rest[..m] {
    }
    if LongAt(before, lines, k + 1, debug) {
      forall m | 0 <= m < k ensures |rest[m]| <= MAX_LENGTH && !(debug && Quits(first + rest[..m], rest[m])) {
        assert lines[m + 1] == rest[m];
      }
    }
    if |lines[0]| <= MAX_LENGTH && !(debug && Quits(before, lines[0])) && LongAt(first, rest, k, debug) {
      forall m | 0 <= m < k + 1 ensures |lines[m]| <= MAX_LENGTH && !(debug && Quits(before + lines[..m], lines[m])) {
        if m > 0 {
          assert lines[m] == rest[m - 1] && before + lines[..m] == first + rest[..m - 1];
        }
      }
    }
    if Calm(before, lines) {
      forall m | 0 <= m < |rest| ensures |rest[m]| <= MAX_LENGTH && !Quits(first + rest[..m], rest[m]) {
        assert lines[m + 1] == rest[m];
      }
    }
    if |lines[0]| <= MAX_LENGTH && !Quits(before, lines[0]) && Calm(first, rest) {
      forall m | 0 <= m < |lines| ensures |lines[m]| <= MAX_LENGTH && !Quits(before + lines[..m], lines[m]) {
        if m > 0 {
          assert lines[m] == rest[m - 1] && before + lines[..m] == first + rest[..m - 1];
        }
      }
    }
  }

  // One read: stuck exactly at an over-long line; through it without QUIT exactly when it is calm.
  lemma {:induction false} BatchOutcome(c: Conn, before: seq<string>, lines: seq<string>, debug: bool)
    requires !c.stuck && !(debug && c.session.quit) && c.session == SessionAfter(before)
    ensures var d := DoLines(c, lines, debug);
            && (d.stuck <==> exists k: nat :: LongAt(before, lines, k, debug))
            && (c.session.quit && !d.stuck ==> d.session.quit)
            && (!c.session.quit ==> (!d.stuck && !d.session.quit <==> Calm(before, lines)))
            && (!d.stuck && !d.session.quit ==> d.session == SessionAfter(before + lines))
    decreases |lines|
  {
    hide Command, LongAt, Calm, Quits, SessionAfter;
    if lines == [] {
      assert before + lines == before;
      NothingLong(before, debug);
    } else if |lines[0]| > MAX_LENGTH {
      FirstIsLong(before, lines, debug);
    } else {
      var c' := DoLine(c, lines[0]);
      var first, rest := before + [lines[0]], lines[1..];
      SessionSnoc(before, lines[0]);
      FirstIsNotLong(before, lines, debug);
      ConsLines(before, lines, 0, debug);
      if !(debug && c'.session.quit) {
        BatchOutcome(c', first, rest, debug);
        assert first + rest == before + lines;
      }
      if k: nat :| LongAt(before, lines, k, debug) {
        ConsLines(before, lines, k - 1, debug);
        assert LongAt(first, rest, k - 1, debug);
      }
      if k: nat :| !(debug && c'.session.quit) && LongAt(first, rest, k, debug) {
        ConsLines(before, lines, k, debug);
        assert LongAt(before, lines, k + 1, debug);
      }
    }
  }

  lemma NothingLong(before: seq<string>, debug: bool)
    ensures Calm(before, []) && forall k: nat :: !LongAt(before, [], k, debug)
  {
  }

  lemma FirstIsLong(before: seq<string>, lines: seq<string>, debug: bool)
    requires lines != [] && |lines[0]| > MAX_LENGTH
    ensures LongAt(before, lines, 0, debug) && !Calm(before, lines)
  {
  }

  lemma FirstIsNotLong(before: seq<string>, lines: seq<string>, debug: bool)
    requires lines != [] && |lines[0]| <= MAX_LENGTH
    ensures forall k: nat :: LongAt(before, lines, k, debug) ==> k > 0
  {
  }

  // The same as LongLineReached for the reads after those whose lines are given.
  ghost predicate LongOver(before: seq<string>, bs: seq<seq<string>>, debug: bool)
    decreases |bs|
  {
    bs != [] &&
    ((exists k: nat :: LongAt(before, bs[0], k, debug)) || (Calm(before, bs[0]) && LongOver(before + bs[0], bs[1..], debug)))
  }

  lemma {:induction false} ServeStuckIff(c: Conn, before: seq<string>, buffer: string, chunks: seq<string>, debug: bool)
    requires !c.stuck && !c.session.quit && c.session == SessionAfter(before)
    ensures Serve(c, buffer, chunks, debug).stuck <==> LongOver(before, Batches(buffer, chunks), debug)
    decreases |chunks|
  {
    hide Command, LongAt, Calm, SessionAfter, Lines, Rest, DoLines;
    if chunks == [] {
    } else {
      var input := buffer + chunks[0];
      var bs := Batches(buffer, chunks);
      assert bs[0] == Lines(input) && bs[1..] == Batches(Rest(input), chunks[1..]);
      BatchOutcome(c, before, Lines(input), debug);
      var d := DoLines(c, Lines(input), debug);
      if !d.stuck && !d.session.quit {
        ServeStuckIff(d, before + Lines(input), Rest(input), chunks[1..], debug);
      }
    }
  }

  lemma {:induction false} LongOverAt(done: seq<seq<string>>, bs: seq<seq<string>>, debug: bool)
    requires forall a :: 0 <= a < |done| ==> Calm(Flat(done[..a]), done[a])
    ensures LongOver(Flat(done), bs, debug) <==> exists b: nat, k: nat :: |done| <= b && LongLineIn(done + bs, b, k, debug)
    decreases |bs|
  {
    hide LongAt, Calm, Flat;
    var all := done + bs;
    if bs == [] {
    } else {
      var done' := done + [bs[0]];
      assert done' + bs[1..] == all && all[..|done|] == done && all[|done|] == bs[0];
      FlatSnoc(done, bs[0]);
      forall a | 0 <= a <= |done| ensures all[..a] == done[..a] == done'[..a] && (a < |done| ==> all[a] == done[a] == done'[a]) {
      }
      if k: nat :| LongAt(Flat(done), bs[0], k, debug) {
        assert LongLineIn(all, |done|, k, debug);
      }
      if Calm(Flat(done), bs[0]) {
        assert forall a :: 0 <= a < |done'| ==> Calm(Flat(done'[..a]), done'[a]);
        LongOverAt(done', bs[1..], debug);
      }
      if b: nat, k: nat :| |done| <= b && LongLineIn(all, b, k, debug) {
        if b == |done| {
          assert LongAt(Flat(done), bs[0], k, debug);
        } else {
          assert Calm(Flat(all[..|done|]), all[|done|]);
          assert |done'| <= b && LongLineIn(done' + bs[1..], b, k, debug);
        }
      }
    }
  }

  lemma {:induction false} FlatSnoc(bs: seq<seq<string>>, lines: seq<string>)
    ensures Flat(bs + [lines]) == Flat(bs) + lines
  {
    if bs == [] {
      assert bs + [lines] == [lines] && [lines][1..] == [] && Flat([lines]) == lines + Flat([]);
    } else {
      assert (bs + [lines])[1..] == bs[1..] + [lines];
      FlatSnoc(bs[1..], lines);
      assert bs[0] + (Flat(bs[1..]) + lines) == bs[0] + Flat(bs[1..]) + lines;
    }
  }

  /** The worker spins exactly when it reaches a line over 1000 characters: every line before it is at most 1000, and
      none is a QUIT outside message data, apart from, outside debug mode, lines of the same read. */
  lemma SpinsIffLongLine(chunks: seq<string>, debug: bool)
    ensures (exists n: nat :: Spins(Steps(Machine(NEW, "", chunks, true), n, debug), debug)) <==>
            LongLineReached(Batches("", chunks), debug)
    ensures Flat(Batches("", chunks)) == Lines(Flatten(chunks))
  {
    hide Spins, Steps, Serve, LongOver, LongLineIn;
    StuckIsForEver(chunks, debug);
    StartIsFresh();
    ServeStuckIff(NEW, [], "", chunks, debug);
    LongOverAt([], Batches("", chunks), debug);
    assert [] + Batches("", chunks) == Batches("", chunks);
    NothingYet();
    BatchesAreLines("", chunks);
    assert "" + Flatten(chunks) == Flatten(chunks);
  }

  lemma StartIsFresh()
    ensures SessionAfter([]) == NEW.session && !NEW.stuck && !NEW.session.quit && Flat([]) == []
  {
  }
}
