// From the bytes on the wire to the mail that goes out.
module SmtpBytes {
  import opened Lists
  import opened SmtpSession
  import opened SmtpMail
  import opened SmtpWorker

  // ---- the bytes of a conversation ----

  function Sent(lines: seq<string>): string {
    if lines == [] then "" else lines[0] + "\r\n" + Sent(lines[1..])
  }

  function RepliesTo(lines: seq<string>): seq<string> {
    if lines == [] then []
    else RepliesTo(lines[..|lines| - 1]) + [Command(SessionAfter(lines[..|lines| - 1]), lines[|lines| - 1]).reply]
  }

  function DeliveriesOf(lines: seq<string>): seq<Delivery> {
    if lines == [] then []
    else DeliveriesOf(lines[..|lines| - 1]) + Command(SessionAfter(lines[..|lines| - 1]), lines[|lines| - 1]).deliveries
  }

  // A line the server can take: no line end inside, at most 1000 characters.
  predicate Sendable(line: string) {
    FindSub(line, "\r\n") < 0 && |line| <= 1000
  }

  lemma {:induction false} LinesSent(lines: seq<string>)
    requires forall x :: x in lines ==> Sendable(x)
    ensures Lines(Sent(lines)) == lines
  {
    hide FindSub;
    if lines == [] {
      NothingYet();
    } else {
      var s := Sent(lines);
      assert lines[0] in lines && forall x :: x in lines[1..] ==> x in lines;
      FirstEnd(lines[0], Sent(lines[1..]));
      assert s[..|lines[0]|] == lines[0] && s[|lines[0]| + 2..] == Sent(lines[1..]);
      LinesSent(lines[1..]);
    }
  }

  lemma FirstEnd(line: string, rest: string)
    requires FindSub(line, CRLF) < 0
    ensures FindSub(line + CRLF + rest, CRLF) == |line|
  {
    var s := line + CRLF + rest;
    NowhereIn(line, CRLF);
    assert s[|line|..|line| + 2] == CRLF && CRLF[0] != CRLF[1];
    forall k | 0 <= k < |line| ensures !OccursAt(s, CRLF, k) {
      if k + 1 == |line| {
        assert s[k..k + 2][1] == s[|line|] == CRLF[0];
      } else {
        assert !OccursAt(line, CRLF, k) && s[k..k + 2] == line[k..k + 2];
      }
    }
    FindSubIs(s, CRLF, |line|);
  }

  lemma {:induction false} NowhereIn(s: string, t: string)
    requires FindSub(s, t) < 0 && t != ""
    ensures forall k :: 0 <= k <= |s| - |t| ==> !OccursAt(s, t, k)
  {
    if |t| > |s| {
    } else {
      NowhereIn(s[1..], t);
      forall k | 0 <= k <= |s| - |t| ensures !OccursAt(s, t, k) {
        if k == 0 {
          assert s[0..|t|] == s[..|t|];
        } else {
          OccursShift(s, t, k - 1);
        }
      }
    }
  }

  // As long as nobody quits, the connection says and delivers what the commands do, one after the other.
  lemma {:induction false} SpokenInOrder(lines: seq<string>)
    requires (forall x :: x in lines ==> Sendable(x)) && !SessionAfter(lines).quit
    ensures DoLines(NEW, lines, true) == Conn(SessionAfter(lines), RepliesTo(lines), DeliveriesOf(lines), false)
  {
    hide Command;
    if lines == [] {
      NoLines(NEW, true);
    } else {
      var init, last := lines[..|lines| - 1], lines[|lines| - 1];
      assert lines == init + [last] && last in lines && forall x :: x in init ==> x in lines;
      QuitStays(SessionAfter(init), last);
      SpokenInOrder(init);
      DoLinesConcat(NEW, init, [last], true);
      OneMore(DoLines(NEW, init, true), last);
    }
  }

  lemma OneMore(c: Conn, line: string)
    requires !c.stuck && !c.session.quit
    ensures DoLines(c, [line], true) == DoLine(c, line)
  {
    hide DoLine;
    NoLines(DoLine(c, line), true);
    assert [line][1..] == [];
  }

  lemma {:induction false} OverrunQuits(c: Conn, buffer: string, chunks: seq<string>)
    requires Overrun(c, buffer, chunks) != []
    ensures Serve(c, buffer, chunks, true).session.quit
    decreases |chunks|
  {
    hide Lines, Rest, DoLines, Leftover;
    var input := buffer + chunks[0];
    DoLinesSplit(c, Lines(input));
    var c' := DoLines(c, Lines(input), true);
    if !c'.stuck && !c'.session.quit {
      OverrunQuits(c', Rest(input), chunks[1..]);
    }
  }

  /** The bytes of a conversation in which nobody quits, cut into reads in any way, in either mode: the replies and the
      deliveries of the commands, in order. */
  lemma ConversationServed(chunks: seq<string>, lines: seq<string>, debug: bool)
    requires (forall x :: x in lines ==> Sendable(x)) && !SessionAfter(lines).quit
    requires Flatten(chunks) == Sent(lines)
    ensures Serve(NEW, "", chunks, debug) == Conn(SessionAfter(lines), RepliesTo(lines), DeliveriesOf(lines), false)
  {
    hide Serve, Overrun, DoLines, SessionAfter;
    NothingYet();
    ServeIsLines(NEW, "", chunks);
    assert "" + Flatten(chunks) == Flatten(chunks);
    LinesSent(lines);
    SpokenInOrder(lines);
    if !debug {
      UpToQuit(NEW, "", chunks);
      if Overrun(NEW, "", chunks) != [] {
        OverrunQuits(NEW, "", chunks);
      }
    }
  }

  lemma {:induction false} NothingWithoutTheDot(lines: seq<string>)
    requires "." !in lines
    ensures DeliveriesOf(lines) == []
  {
    if lines == [] {
    } else {
      var init, last := lines[..|lines| - 1], lines[|lines| - 1];
      NothingWithoutTheDot(init);
      SessionExplained(init);
      OrderRules(SessionAfter(init), last);
      OnlyTheDot(SessionAfter(init), last);
    }
  }

  lemma OnlyTheDot(s: Session, cmd: string)
    requires s.state <= 4 && cmd != "."
    ensures Command(s, cmd).deliveries == []
  {
    OrderRules(s, cmd);
    CommandEffect(s, cmd);
  }

  function Transaction(mail: Named, rcpts: seq<Named>, data: string, lines: seq<string>): seq<string> {
    [LineOf(mail)] + LinesOf(rcpts) + [data] + lines
  }

  lemma NoDotYet(hello: string, mail: Named, rcpts: seq<Named>, data: string, lines: seq<string>)
    requires Spells(hello, "helo", "HELO") && Spells(data, "data", "DATA") && "." !in lines
    ensures "." !in [hello] + Transaction(mail, rcpts, data, lines)
  {
  }

  lemma Greeted(hello: string)
    requires Spells(hello, "helo", "HELO") && |hello| > 4
    ensures SessionAfter([hello]) == START.(state := 1)
  {
    PlainCommands(START, hello);
    assert [hello][..0] == [] && SessionAfter([]) == START;
  }

  /** From the bytes a client sends to the mail that goes out: a greeting, a transaction and the dot, however the network
      cuts them, in either mode. */
  lemma BytesToMail(chunks: seq<string>, debug: bool, hello: string, mail: Named, rcpts: seq<Named>, data: string,
                    lines: seq<string>)
    requires Spells(hello, "helo", "HELO") && |hello| > 4
    requires WellNamed(mail, "mail from", "MAIL FROM") && Spells(data, "data", "DATA")
    requires rcpts != [] && (forall x :: x in rcpts ==> WellNamed(x, "rcpt to", "RCPT TO")) && "." !in lines
    requires forall x :: x in [hello] + Transaction(mail, rcpts, data, lines) ==> Sendable(x)
    requires Flatten(chunks) == Sent([hello] + Transaction(mail, rcpts, data, lines) + ["."])
    ensures var here, elsewhere, text := Here(rcpts), Elsewhere(rcpts), Content(lines);
            Serve(NEW, "", chunks, debug).deliveries ==
            seq(|here|, i requires 0 <= i < |here| => ToMailbox(here[i], mail.user, text)) +
            seq(|elsewhere|, i requires 0 <= i < |elsewhere| => ToRemote(elsewhere[i], mail.user + "@" + mail.host, text))
  {
    hide Command, Spells, WellNamed, Serve, SessionAfter, Sendable, Here, Elsewhere, Content, Transaction;
    NoDotYet(hello, mail, rcpts, data, lines);
    var said := [hello] + Transaction(mail, rcpts, data, lines);
    SaidAfterGreeting(hello, mail, rcpts, data, lines);
    ServedToTheDot(chunks, said, debug);
    Greeted(hello);
    TransactionDelivers([hello], mail, rcpts, data, lines);
  }

  lemma SaidAfterGreeting(hello: string, mail: Named, rcpts: seq<Named>, data: string, lines: seq<string>)
    requires Spells(hello, "helo", "HELO") && |hello| > 4
    requires WellNamed(mail, "mail from", "MAIL FROM") && Spells(data, "data", "DATA")
    requires rcpts != [] && (forall x :: x in rcpts ==> WellNamed(x, "rcpt to", "RCPT TO")) && "." !in lines
    ensures var said := [hello] + Transaction(mail, rcpts, data, lines);
            && said == [hello] + [LineOf(mail)] + LinesOf(rcpts) + [data] + lines
            && SessionAfter(said).state == 4 && !SessionAfter(said).quit
  {
    hide Command, Spells, WellNamed, SessionAfter, LineOf, Here, Elsewhere, Content;
    Greeted(hello);
    TransactionDelivers([hello], mail, rcpts, data, lines);
    var said := [hello] + Transaction(mail, rcpts, data, lines);
    assert said == [hello] + [LineOf(mail)] + LinesOf(rcpts) + [data] + lines;
  }

  lemma ServedToTheDot(chunks: seq<string>, said: seq<string>, debug: bool)
    requires !SessionAfter(said).quit && SessionAfter(said).state == 4 && "." !in said
    requires forall x :: x in said ==> Sendable(x)
    requires Flatten(chunks) == Sent(said + ["."])
    ensures Serve(NEW, "", chunks, debug).deliveries == Command(SessionAfter(said), ".").deliveries
  {
    hide Command, FindSub, Serve, SessionAfter;
    NothingWithoutTheDot(said);
    EndsWithTheDot(said);
    ConversationServed(chunks, said + ["."], debug);
  }

  lemma EndsWithTheDot(said: seq<string>)
    requires !SessionAfter(said).quit && SessionAfter(said).state == 4 && DeliveriesOf(said) == []
    requires forall x :: x in said ==> Sendable(x)
    ensures !SessionAfter(said + ["."]).quit
    ensures DeliveriesOf(said + ["."]) == Command(SessionAfter(said), ".").deliveries
    ensures forall x :: x in said + ["."] ==> Sendable(x)
  {
    SessionSnoc(said, ".");
    OrderRules(SessionAfter(said), ".");
    assert (said + ["."])[..|said|] == said;
  }
}
