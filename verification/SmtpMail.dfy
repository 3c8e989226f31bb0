// A mail transaction as the text of its command lines: which verb a line spells, which address it names, and
// what the closing dot delivers.
module SmtpMail {
  import opened Format
  import opened SmtpSession

  // ---- verbs ----

  /** The line starts with the word, each letter in either case. */
  predicate Spells(line: string, lower: string, upper: string)
    requires |lower| == |upper|
  {
    |lower| <= |line| && forall i :: 0 <= i < |lower| ==> line[i] == lower[i] || line[i] == upper[i]
  }

  // A small letter and its capital, or twice the same character that is no letter.
  predicate TwoCases(l: char, u: char) {
    ('a' <= l <= 'z' && l as int - 'a' as int == u as int - 'A' as int) || (l == u && !('a' <= l <= 'z') && !('A' <= l <= 'Z'))
  }

  lemma LowerIs(c: char, l: char, u: char)
    requires TwoCases(l, u)
    ensures ToLower(c) == l <==> c == l || c == u
  {
  }

  lemma StartsSpelled(line: string, lower: string, upper: string)
    requires |lower| == |upper| && forall i :: 0 <= i < |lower| ==> TwoCases(lower[i], upper[i])
    ensures Starts(Lower(line), lower) <==> Spells(line, lower, upper)
  {
    hide ToLower, TwoCases;
    forall i | 0 <= i < |lower| <= |line| ensures Lower(line)[i] == lower[i] <==> line[i] == lower[i] || line[i] == upper[i] {
      LowerIs(line[i], lower[i], upper[i]);
    }
    assert |lower| <= |line| ==>
      (Lower(line)[..|lower|] == lower <==> forall i :: 0 <= i < |lower| ==> Lower(line)[i] == lower[i]);
  }

  /** The verb of a line is the one it spells, in any mixture of cases. */
  lemma VerbIsSpelled(line: string)
    ensures VerbOf(line) == Helo <==> Spells(line, "helo", "HELO")
    ensures VerbOf(line) == MailFrom <==> Spells(line, "mail from", "MAIL FROM")
    ensures VerbOf(line) == RcptTo <==> Spells(line, "rcpt to", "RCPT TO")
    ensures VerbOf(line) == Verb.Data <==> Spells(line, "data", "DATA")
    ensures VerbOf(line) == Quit <==> Spells(line, "quit", "QUIT")
    ensures VerbOf(line) == Rset <==> Spells(line, "rset", "RSET")
    ensures VerbOf(line) == Noop <==> Spells(line, "noop", "NOOP")
  {
    StartsSpelled(line, "helo", "HELO");
    StartsSpelled(line, "mail from", "MAIL FROM");
    StartsSpelled(line, "rcpt to", "RCPT TO");
    StartsSpelled(line, "data", "DATA");
    StartsSpelled(line, "quit", "QUIT");
    StartsSpelled(line, "rset", "RSET");
    StartsSpelled(line, "noop", "NOOP");
    hide Lower, Spells, Starts;
    OneVerb(Lower(line));
  }

  lemma OneVerb(s: string)
    ensures Starts(s, "helo") ==> !Starts(s, "mail from") && !Starts(s, "rcpt to") && !Starts(s, "data") && !Starts(s, "quit")
                                  && !Starts(s, "rset") && !Starts(s, "noop")
    ensures Starts(s, "mail from") ==> !Starts(s, "rcpt to") && !Starts(s, "data") && !Starts(s, "quit") && !Starts(s, "rset")
                                       && !Starts(s, "noop")
    ensures Starts(s, "rcpt to") ==> !Starts(s, "data") && !Starts(s, "quit") && !Starts(s, "rset") && !Starts(s, "noop")
    ensures Starts(s, "data") ==> !Starts(s, "quit") && !Starts(s, "rset") && !Starts(s, "noop")
    ensures Starts(s, "quit") ==> !Starts(s, "rset") && !Starts(s, "noop")
    ensures Starts(s, "rset") ==> !Starts(s, "noop")
  {
    if |s| >= 4 {
      forall word | word in {"helo", "mail from", "rcpt to", "data", "quit", "rset", "noop"} && Starts(s, word)
        ensures s[0] == word[0] && s[1] == word[1]
      {
        assert s[..|word|][0] == word[0] && s[..|word|][1] == word[1];
      }
    }
  }

  // ---- addresses ----

  predicate Plain(s: string) {
    '<' !in s && '@' !in s && '>' !in s
  }

  /** A line that names an address in brackets. */
  datatype Named = Named(pre: string, user: string, host: string, post: string)

  function LineOf(x: Named): string {
    x.pre + "<" + x.user + "@" + x.host + ">" + x.post
  }

  predicate WellNamed(x: Named, lower: string, upper: string)
    requires |lower| == |upper|
  {
    Plain(x.pre) && Plain(x.user) && Plain(x.host) && Spells(x.pre, lower, upper)
  }

  lemma CharAt(a: string, c: char, b: string)
    requires c !in a
    ensures Find(a + [c] + b, c) == |a|
  {
    var s := a + [c] + b;
    assert forall j :: 0 <= j < |a| ==> s[j] == a[j];
    FindInIs(s, 0, {c}, |a|);
  }

  lemma NotThere(s: string, c: char)
    requires c !in s
    ensures Find(s, c) == -1
  {
  }

  /** The host of any line: what follows the first at sign up to the first closing bracket, all of it if that bracket
      comes before or not at all. */
  lemma HostOf(before: string, after: string, x: string, y: string)
    requires '@' !in before
    ensures Find(before + "@" + after, '@') == |before|
    ensures '>' !in before && '>' !in x && after == x + ">" + y ==> Host(before + "@" + after) == x
    ensures '>' in before || '>' !in after ==> Host(before + "@" + after) == after
  {
    hide FindIn;
    var line := before + "@" + after;
    CharAt(before, '@', after);
    assert line[|before| + 1..] == after;
    if '>' !in before && '>' !in x && after == x + ">" + y {
      CharAt(before + "@" + x, '>', y);
      assert line == before + "@" + x + ['>'] + y;
      assert line[|before| + 1..|before| + 1 + |x|] == x;
    } else if '>' in before {
      FirstIsEarly(before, '>', "@" + after);
      assert line == before + ("@" + after);
    } else if '>' !in after {
      NotThere(line, '>');
    }
  }

  /** The user: what stands between the first opening bracket and the first at sign, all from the start if there is no
      such bracket, and what follows the bracket if it comes after the at sign. */
  lemma UserOf(before: string, after: string, x: string, y: string)
    requires '@' !in before
    ensures Find(before + "@" + after, '@') == |before|
    ensures '<' !in x && before == x + "<" + y ==> User(before + "@" + after) == y
    ensures '<' !in before && '<' !in x && after == x + "<" + y ==> User(before + "@" + after) == y
    ensures '<' !in before && '<' !in after ==> User(before + "@" + after) == before
  {
    hide FindIn;
    var line := before + "@" + after;
    CharAt(before, '@', after);
    assert line[..|before|] == before;
    if '<' !in x && before == x + "<" + y {
      CharAt(x, '<', y + "@" + after);
      assert line == x + ['<'] + (y + "@" + after);
      assert line[|x| + 1..|before|] == y;
    } else if '<' !in before && '<' !in x && after == x + "<" + y {
      CharAt(before + "@" + x, '<', y);
      assert line == before + "@" + x + ['<'] + y;
      assert line[|before| + 1 + |x| + 1..] == y;
    } else if '<' !in before && '<' !in after {
      NotThere(line, '<');
    }
  }

  lemma FirstIsEarly(a: string, c: char, b: string)
    requires c in a
    ensures 0 <= Find(a + b, c) < |a|
  {
    var i :| 0 <= i < |a| && a[i] == c;
    assert (a + b)[i] == c;
  }

  /** So what is read as user and host is what stands in the brackets. */
  lemma AddressIsNamed(x: Named)
    requires Plain(x.pre) && Plain(x.user) && Plain(x.host)
    ensures Find(LineOf(x), '@') >= 0 && User(LineOf(x)) == x.user && Host(LineOf(x)) == x.host
  {
    hide Find, User, Host;
    var before, after := x.pre + "<" + x.user, x.host + ">" + x.post;
    assert LineOf(x) == before + "@" + after;
    HostOf(before, after, x.host, x.post);
    UserOf(before, after, x.pre, x.user);
  }

  // ---- what is said and what is delivered ----

  function LinesOf(xs: seq<Named>): (r: seq<string>)
    ensures |r| == |xs|
  {
    seq(|xs|, i requires 0 <= i < |xs| => LineOf(xs[i]))
  }

  /** The users at this host, and the addresses elsewhere, each in the order they were named. */
  function Here(xs: seq<Named>): seq<string> {
    if xs == [] then []
    else Here(xs[..|xs| - 1]) + if xs[|xs| - 1].host == "localhost" then [xs[|xs| - 1].user] else []
  }

  function Elsewhere(xs: seq<Named>): seq<string> {
    if xs == [] then []
    else Elsewhere(xs[..|xs| - 1]) +
         if xs[|xs| - 1].host == "localhost" then [] else [xs[|xs| - 1].user + "@" + xs[|xs| - 1].host]
  }

  function Content(lines: seq<string>): string {
    if lines == [] then "" else Content(lines[..|lines| - 1]) + lines[|lines| - 1] + "\n"
  }

  lemma MailSaid(s: Session, x: Named)
    requires s.state == 1 && WellNamed(x, "mail from", "MAIL FROM")
    ensures Command(s, LineOf(x)) == Answer(s.(state := 2, sender := x.user, senderHost := x.host), OK_MSG, [])
  {
    VerbIsSpelled(LineOf(x));
    SpelledThrough(x, "mail from", "MAIL FROM");
    AddressIsNamed(x);
    hide Spells, Find, User, Host, LineOf, Command, VerbOf;
    MailCommand(s, LineOf(x));
  }

  lemma MailCommand(s: Session, cmd: string)
    requires s.state == 1 && VerbOf(cmd) == MailFrom && |cmd| > 10 && Find(cmd, '@') >= 0
    ensures Command(s, cmd) == Answer(s.(state := 2, sender := User(cmd), senderHost := Host(cmd)), OK_MSG, [])
  {
    hide Starts, Lower, Find, User, Host;
  }

  lemma RcptSaid(s: Session, x: Named)
    requires (s.state == 2 || s.state == 3) && WellNamed(x, "rcpt to", "RCPT TO")
    ensures Command(s, LineOf(x)) ==
            Answer(if x.host == "localhost" then s.(state := 3, locals := s.locals + [x.user])
                   else s.(state := 3, remotes := s.remotes + [x.user + "@" + x.host]), OK_MSG, [])
  {
    VerbIsSpelled(LineOf(x));
    SpelledThrough(x, "rcpt to", "RCPT TO");
    AddressIsNamed(x);
    hide Spells, Find, User, Host, LineOf, Command, VerbOf;
    RcptCommand(s, LineOf(x));
  }

  lemma RcptCommand(s: Session, cmd: string)
    requires (s.state == 2 || s.state == 3) && VerbOf(cmd) == RcptTo && |cmd| > 8 && Find(cmd, '@') >= 0
    ensures Command(s, cmd) ==
            Answer(if Host(cmd) == "localhost" then s.(state := 3, locals := s.locals + [User(cmd)])
                   else s.(state := 3, remotes := s.remotes + [User(cmd) + "@" + Host(cmd)]), OK_MSG, [])
  {
    hide Starts, Lower, Find, User, Host;
  }

  lemma SpelledThrough(x: Named, lower: string, upper: string)
    requires |lower| == |upper| && Spells(x.pre, lower, upper)
    ensures Spells(LineOf(x), lower, upper) && |LineOf(x)| >= |lower| + 3
  {
  }

  lemma {:induction false} AfterRecipients(before: seq<string>, xs: seq<Named>)
    requires SessionAfter(before).state == 2 && SessionAfter(before).locals == SessionAfter(before).remotes == []
    requires forall x :: x in xs ==> WellNamed(x, "rcpt to", "RCPT TO")
    ensures SessionAfter(before + LinesOf(xs)) ==
            SessionAfter(before).(state := if xs == [] then 2 else 3, locals := Here(xs), remotes := Elsewhere(xs))
  {
    hide WellNamed, LineOf, Command, SessionAfter, Quits;
    if xs == [] {
      assert before + LinesOf(xs) == before;
    } else {
      var init, last := xs[..|xs| - 1], xs[|xs| - 1];
      AfterRecipients(before, init);
      RcptSaid(SessionAfter(before + LinesOf(init)), last);
      assert before + LinesOf(xs) == before + LinesOf(init) + [LineOf(last)];
      SessionSnoc(before + LinesOf(init), LineOf(last));
    }
  }

  lemma {:induction false} AfterLines(before: seq<string>, lines: seq<string>)
    requires SessionAfter(before).state == 4 && SessionAfter(before).content == "" && "." !in lines
    ensures SessionAfter(before + lines) == SessionAfter(before).(content := Content(lines))
  {
    hide Command, SessionAfter, Quits;
    if lines == [] {
      assert before + lines == before;
    } else {
      var init, last := lines[..|lines| - 1], lines[|lines| - 1];
      AfterLines(before, init);
      LineSaid(SessionAfter(before + init), last);
      assert before + lines == before + init + [last];
      SessionSnoc(before + init, last);
    }
  }

  lemma LineSaid(s: Session, line: string)
    requires s.state == 4 && line != "."
    ensures Command(s, line).next == s.(content := s.content + line + "\n")
  {
    OrderRules(s, line);
    CommandEffect(s, line);
  }

  lemma DataSaid(s: Session, data: string)
    requires s.state == 3 && Spells(data, "data", "DATA")
    ensures Command(s, data).next == s.(state := 4)
  {
    VerbIsSpelled(data);
    hide Spells, Lower, Starts;
  }

  lemma DotSaid(s: Session)
    requires s.state == 4
    ensures Command(s, ".").deliveries == Mails(s.sender, s.senderHost, s.locals, s.remotes, s.content)
    ensures Command(s, ".").reply == OK_MSG
  {
    OrderRules(s, ".");
  }

  /** A whole transaction in its own words, wherever it stands in a conversation: MAIL naming the sender, RCPT for each
      recipient, DATA, lines, and the dot. One mail for every recipient at this host and then one for every other, in
      the order they were named, from the sender named, with the lines said. */
  lemma TransactionDelivers(before: seq<string>, mail: Named, rcpts: seq<Named>, data: string, lines: seq<string>)
    requires SessionAfter(before).state == 1
    requires WellNamed(mail, "mail from", "MAIL FROM") && Spells(data, "data", "DATA")
    requires rcpts != [] && (forall x :: x in rcpts ==> WellNamed(x, "rcpt to", "RCPT TO")) && "." !in lines
    ensures var here, elsewhere, text := Here(rcpts), Elsewhere(rcpts), Content(lines);
            Command(SessionAfter(before + [LineOf(mail)] + LinesOf(rcpts) + [data] + lines), ".").deliveries ==
            seq(|here|, i requires 0 <= i < |here| => ToMailbox(here[i], mail.user, text)) +
            seq(|elsewhere|, i requires 0 <= i < |elsewhere| => ToRemote(elsewhere[i], mail.user + "@" + mail.host, text))
    ensures var s := SessionAfter(before + [LineOf(mail)] + LinesOf(rcpts) + [data] + lines);
            s.state == 4 && s.quit == SessionAfter(before).quit
  {
    SessionExplained(before);
    MailSaid(SessionAfter(before), mail);
    hide Command, Explained, WellNamed, Spells, LineOf, Here, Elsewhere, Content;
    SessionSnoc(before, LineOf(mail));
    var named := before + [LineOf(mail)];
    AfterRecipients(named, rcpts);
    DataSaid(SessionAfter(named + LinesOf(rcpts)), data);
    SessionSnoc(named + LinesOf(rcpts), data);
    AfterLines(named + LinesOf(rcpts) + [data], lines);
    DotSaid(SessionAfter(named + LinesOf(rcpts) + [data] + lines));
  }

  lemma TwoRecipients(x: Named, y: Named)
    requires x.host == "localhost" && y.host != "localhost"
    ensures LinesOf([x, y]) == [LineOf(x), LineOf(y)] && Here([x, y]) == [x.user] && Elsewhere([x, y]) == [y.user + "@" + y.host]
  {
    hide LineOf;
    assert [x, y][..1] == [x] && [x][..0] == [];
    assert Here([x]) == Here([]) + [x.user] == [x.user] && Elsewhere([x]) == Elsewhere([]) + [] == [];
    assert Here([x, y]) == Here([x]) + [] && Elsewhere([x, y]) == [] + [y.user + "@" + y.host];
  }

  lemma TwoDeliveries(before: seq<string>, mail: Named, x: Named, y: Named, lines: seq<string>)
    requires SessionAfter(before).state == 1 && "." !in lines && x.host == "localhost" && y.host != "localhost"
    requires WellNamed(mail, "mail from", "MAIL FROM") && WellNamed(x, "rcpt to", "RCPT TO") && WellNamed(y, "rcpt to", "RCPT TO")
    ensures var said := [LineOf(mail), LineOf(x), LineOf(y), "DATA"];
            Command(SessionAfter(before + said + lines), ".").deliveries ==
            [ToMailbox(x.user, mail.user, Content(lines)),
             ToRemote(y.user + "@" + y.host, mail.user + "@" + mail.host, Content(lines))]
  {
    hide Command, SessionAfter, LineOf, Here, Elsewhere, Content, LinesOf, WellNamed;
    TwoRecipients(x, y);
    TransactionDelivers(before, mail, [x, y], "DATA", lines);
    assert before + [LineOf(mail)] + [LineOf(x), LineOf(y)] + ["DATA"] + lines ==
           before + [LineOf(mail), LineOf(x), LineOf(y), "DATA"] + lines;
  }

  lemma BracketText(word: string, user: string, host: string)
    ensures LineOf(Named(word, user, host, "")) == word + "<" + user + "@" + host + ">"
  {
  }

  lemma LiteralText(a: string, b: string, u: string)
    ensures "MAIL FROM:" + "<" + a + "@" + b + ">" == "MAIL FROM:<" + a + "@" + b + ">"
    ensures "RCPT TO:" + "<" + u + "@" + b + ">" == "RCPT TO:<" + u + "@" + b + ">"
    ensures "RCPT TO:<" + u + "@" + "localhost" + ">" == "RCPT TO:<" + u + "@localhost>"
  {
    assert "MAIL FROM:" + "<" == "MAIL FROM:<" && "RCPT TO:" + "<" == "RCPT TO:<";
    var before := "RCPT TO:<" + u;
    assert before + "@" + "localhost" + ">" == before + ("@" + "localhost" + ">");
    assert "@" + "localhost" + ">" == "@localhost>";
  }

  lemma CapitalsSpell(user: string, host: string)
    requires Plain(user) && Plain(host)
    ensures WellNamed(Named("MAIL FROM:", user, host, ""), "mail from", "MAIL FROM")
    ensures WellNamed(Named("RCPT TO:", user, host, ""), "rcpt to", "RCPT TO")
  {
  }

  /** One recipient of each kind. */
  lemma OneHereOneElsewhere(before: seq<string>, a: string, b: string, u: string, v: string, w: string, lines: seq<string>)
    requires SessionAfter(before).state == 1 && "." !in lines
    requires Plain(a) && Plain(b) && Plain(u) && Plain(v) && Plain(w) && w != "localhost"
    ensures var said := ["MAIL FROM:<" + a + "@" + b + ">", "RCPT TO:<" + u + "@localhost>", "RCPT TO:<" + v + "@" + w + ">", "DATA"];
            Command(SessionAfter(before + said + lines), ".").deliveries ==
            [ToMailbox(u, a, Content(lines)), ToRemote(v + "@" + w, a + "@" + b, Content(lines))]
  {
    CapitalsSpell(a, b);
    CapitalsSpell(u, "localhost");
    CapitalsSpell(v, w);
    hide Command, SessionAfter, Content, LineOf, WellNamed, Plain;
    BracketText("MAIL FROM:", a, b);
    BracketText("RCPT TO:", u, "localhost");
    BracketText("RCPT TO:", v, w);
    LiteralText(a, b, u);
    LiteralText(a, w, v);
    LiteralText(a, "localhost", u);
    TwoDeliveries(before, Named("MAIL FROM:", a, b, ""), Named("RCPT TO:", u, "localhost", ""), Named("RCPT TO:", v, w, ""), lines);
  }

  // ---- the other commands ----

  /** The greeting, in any mixture of cases, and the commands that carry nothing. */
  lemma PlainCommands(s: Session, line: string)
    requires s.state <= 4
    ensures Spells(line, "helo", "HELO") && |line| > 4 && s.state <= 1 ==>
              Command(s, line) == Answer(s.(state := 1), "250 localhost\r\n", [])
    ensures Spells(line, "rset", "RSET") && 1 <= s.state <= 3 ==>
              Command(s, line) == Answer(s.(state := 1, sender := "", locals := [], remotes := []), "250 OK\r\n", [])
    ensures Spells(line, "noop", "NOOP") && 1 <= s.state <= 3 ==> Command(s, line) == Answer(s, "250 OK\r\n", [])
    ensures Spells(line, "quit", "QUIT") && s.state <= 3 ==> Command(s, line) == Answer(s.(quit := true), "221 Goodbye!\r\n", [])
  {
    VerbIsSpelled(line);
    hide Spells, Starts, Lower;
  }
}
