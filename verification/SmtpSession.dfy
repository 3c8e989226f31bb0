// One SMTP connection: the command machine and what its deliveries carry.
module SmtpSession {
  import opened Format
  import opened Lists

  const HELO_MSG := "250 localhost\r\n"
  const OK_MSG := "250 OK\r\n"
  const BYE_MSG := "221 Goodbye!\r\n"
  const DATA_START_MSG := "354 Start data input\r\n"
  const BAD_MSG := "503 Bad sequence of commands\r\n"
  const ERR_MSG := "500 syntax error, command unrecognized\r\n"

  // ---- commands and addresses ----

  function ToLower(c: char): char {
    if 'A' <= c <= 'Z' then (c as int - 'A' as int + 'a' as int) as char else c
  }

  function Lower(s: string): (r: string)
    ensures |r| == |s| && forall i :: 0 <= i < |s| ==> r[i] == ToLower(s[i])
  {
    seq(|s|, i requires 0 <= i < |s| => ToLower(s[i]))
  }

  predicate Starts(s: string, prefix: string) {
    |prefix| <= |s| && s[..|prefix|] == prefix
  }

  function Find(s: string, c: char): (i: int)
    ensures -1 <= i < |s|
    ensures i >= 0 ==> s[i] == c
  {
    FindIn(s, 0, {c})
  }

  /** From after the first at sign to the first closing bracket; to the end when there is none after it. */
  function Host(cmd: string): string
    requires Find(cmd, '@') >= 0
  {
    var at, close := Find(cmd, '@'), Find(cmd, '>');
    if close > at then cmd[at + 1..close] else cmd[at + 1..]
  }

  /** From after the first opening bracket, or the start, to the first at sign; to the end when the bracket comes
      after the at sign. */
  function User(cmd: string): string
    requires Find(cmd, '@') >= 0
  {
    var at, open := Find(cmd, '@'), Find(cmd, '<');
    if open < at then cmd[open + 1..at] else cmd[open + 1..]
  }

  // ---- the session ----

  /** state: 0 initial, 1 HELO, 2 MAIL FROM, 3 RCPT TO, 4 DATA. */
  datatype Session = Session(state: nat, sender: string, senderHost: string, locals: seq<string>, remotes: seq<string>,
                             content: string, quit: bool)

  const START := Session(0, "", "", [], [], "", false)

  datatype Delivery =
    | ToMailbox(recipient: string, sender: string, content: string)
    | ToRemote(address: string, from: string, content: string)

  datatype Answer = Answer(next: Session, reply: string, deliveries: seq<Delivery>)

  function LocalDeliveries(locals: seq<string>, sender: string, content: string): seq<Delivery> {
    seq(|locals|, i requires 0 <= i < |locals| => ToMailbox(locals[i], sender, content))
  }

  function RemoteDeliveries(remotes: seq<string>, from: string, content: string): seq<Delivery> {
    seq(|remotes|, i requires 0 <= i < |remotes| => ToRemote(remotes[i], from, content))
  }

  function Mails(sender: string, host: string, locals: seq<string>, remotes: seq<string>, content: string): seq<Delivery> {
    LocalDeliveries(locals, sender, content) + RemoteDeliveries(remotes, sender + "@" + host, content)
  }

  function DoMail(s: Session, cmd: string): Answer {
    if |cmd| <= 10 || Find(cmd, '@') < 0 then Answer(s, ERR_MSG, [])
    else if s.state != 1 then Answer(s, BAD_MSG, [])
    else Answer(s.(state := 2, sender := User(cmd), senderHost := Host(cmd)), OK_MSG, [])
  }

  function DoRcpt(s: Session, cmd: string): Answer {
    if |cmd| <= 8 || Find(cmd, '@') < 0 then Answer(s, ERR_MSG, [])
    else if s.state != 2 && s.state != 3 then Answer(s, BAD_MSG, [])
    else if Host(cmd) != "localhost" then
      Answer(s.(state := 3, remotes := s.remotes + [User(cmd) + "@" + Host(cmd)]), OK_MSG, [])
    else Answer(s.(state := 3, locals := s.locals + [User(cmd)]), OK_MSG, [])
  }

  function DoData(s: Session, cmd: string): Answer {
    if s.state == 3 then Answer(s.(state := 4), DATA_START_MSG, [])
    else if s.state == 4 then
      if Lower(cmd) == "." then
        Answer(s.(state := 1, sender := "", locals := [], remotes := [], content := ""), OK_MSG,
               Mails(s.sender, s.senderHost, s.locals, s.remotes, s.content))
      else Answer(s.(content := s.content + cmd + "\n"), "", [])
    else Answer(s, BAD_MSG, [])
  }

  /** One command line, without its line end. */
  function Command(s: Session, cmd: string): Answer {
    var action := Lower(cmd);
    if Starts(action, "helo") && s.state != 4 then
      if |cmd| <= 4 then Answer(s, ERR_MSG, [])
      else if s.state > 1 then Answer(s, BAD_MSG, [])
      else Answer(s.(state := 1), HELO_MSG, [])
    else if Starts(action, "mail from") && s.state != 4 then DoMail(s, cmd)
    else if Starts(action, "rcpt to") && s.state != 4 then DoRcpt(s, cmd)
    else if Starts(action, "data") || s.state == 4 then DoData(s, cmd)
    else if Starts(action, "quit") then Answer(s.(quit := true), BYE_MSG, [])
    else if Starts(action, "rset") then
      if s.state < 1 then Answer(s, BAD_MSG, [])
      else Answer(s.(state := 1, sender := "", locals := [], remotes := []), OK_MSG, [])
    else if Starts(action, "noop") then Answer(s, if s.state < 1 then BAD_MSG else OK_MSG, [])
    else Answer(s, ERR_MSG, [])
  }

  // ---- what a command meant, as mail transactions see it ----

  /** Rejected commands, NOOP, HELO and QUIT leave a transaction as it is. */
  datatype Event = Mail(sender: string, host: string) | Rcpt(user: string, host: string) | DataStart | Line(text: string)
                 | Finish | Reset | Aside

  function EventOf(s: Session, cmd: string): Event {
    var action, reply := Lower(cmd), Command(s, cmd).reply;
    if s.state == 4 then if action == "." then Finish else Line(cmd)
    else if Starts(action, "helo") then Aside
    else if Starts(action, "mail from") then if reply == OK_MSG then Mail(User(cmd), Host(cmd)) else Aside
    else if Starts(action, "rcpt to") then if reply == OK_MSG then Rcpt(User(cmd), Host(cmd)) else Aside
    else if Starts(action, "data") then if reply == DATA_START_MSG then DataStart else Aside
    else if Starts(action, "quit") then Aside
    else if Starts(action, "rset") then if reply == OK_MSG then Reset else Aside
    else Aside
  }

  function SessionAfter(cmds: seq<string>): Session {
    if cmds == [] then START else Command(SessionAfter(cmds[..|cmds| - 1]), cmds[|cmds| - 1]).next
  }

  /** The events of a conversation. */
  function Events(cmds: seq<string>): (es: seq<Event>)
    ensures |es| == |cmds|
  {
    if cmds == [] then []
    else Events(cmds[..|cmds| - 1]) + [EventOf(SessionAfter(cmds[..|cmds| - 1]), cmds[|cmds| - 1])]
  }

  function Locals(es: seq<Event>): seq<string> {
    if es == [] then []
    else
      var e := es[|es| - 1];
      Locals(es[..|es| - 1]) + (if e.Rcpt? && e.host == "localhost" then [e.user] else [])
  }

  function Remotes(es: seq<Event>): seq<string> {
    if es == [] then []
    else
      var e := es[|es| - 1];
      Remotes(es[..|es| - 1]) + (if e.Rcpt? && e.host != "localhost" then [e.user + "@" + e.host] else [])
  }

  function Text(es: seq<Event>): string {
    if es == [] then ""
    else
      var e := es[|es| - 1];
      Text(es[..|es| - 1]) + (if e.Line? then e.text + "\n" else "")
  }

  // No event from i on starts, ends or abandons a transaction, or belongs to its data.
  predicate OnlyRecipients(es: seq<Event>) {
    forall k :: 0 <= k < |es| ==> es[k].Rcpt? || es[k].Aside?
  }

  predicate OnlyLines(es: seq<Event>) {
    forall k :: 0 <= k < |es| ==> es[k].Line?
  }

  /** A transaction is open: it began with the MAIL at m, and only recipients have come since. */
  ghost predicate Open(es: seq<Event>, m: int, s: Session) {
    && 0 <= m < |es| && es[m] == Mail(s.sender, s.senderHost)
    && OnlyRecipients(es[m + 1..])
    && s.locals == Locals(es[m + 1..]) && s.remotes == Remotes(es[m + 1..])
  }

  /** Its data is being read: DATA came at d, and only lines since. */
  ghost predicate Reading(es: seq<Event>, m: int, d: int, s: Session) {
    && 0 <= m < d < |es| && es[d].DataStart?
    && Open(es[..d], m, s) && OnlyLines(es[d + 1..])
    && s.content == Text(es[d + 1..])
  }

  ghost predicate Explained(es: seq<Event>, s: Session) {
    && s.state <= 4
    && (s.state < 4 ==> s.content == "")
    && (s.state < 2 ==> s.locals == [] && s.remotes == [])
    && (s.state == 2 ==> s.locals == [] && s.remotes == [] && exists m :: Open(es, m, s))
    && (s.state == 3 ==> s.locals + s.remotes != [] && exists m :: Open(es, m, s))
    && (s.state == 4 ==> s.locals + s.remotes != [] && exists m, d :: Reading(es, m, d, s))
  }

  // ---- the events explain the session ----

  lemma SuffixSnoc(es: seq<Event>, e: Event, m: int)
    requires 0 <= m < |es|
    ensures (es + [e])[m + 1..] == es[m + 1..] + [e] && (es + [e])[m] == es[m]
  {
  }

  // What one command does to the session, by the event it is.
  lemma CommandEffect(s: Session, cmd: string)
    requires s.state <= 4
    ensures var a, e := Command(s, cmd), EventOf(s, cmd);
            match e
            case Mail(x, h) => s.state == 1 && a.next == s.(state := 2, sender := x, senderHost := h)
            case Rcpt(u, h) => 2 <= s.state <= 3 && a.next ==
              (if h == "localhost" then s.(state := 3, locals := s.locals + [u])
               else s.(state := 3, remotes := s.remotes + [u + "@" + h]))
            case DataStart => s.state == 3 && a.next == s.(state := 4)
            case Line(t) => s.state == 4 && a.next == s.(content := s.content + t + "\n")
            case Finish => s.state == 4 && a.next == s.(state := 1, sender := "", locals := [], remotes := [], content := "")
            case Reset => 1 <= s.state <= 3 && a.next == s.(state := 1, sender := "", locals := [], remotes := [])
            case Aside => s.state != 4 && (a.next == s || a.next == s.(quit := true) || (s.state < 2 && a.next == s.(state := 1)))
    ensures Command(s, cmd).deliveries ==
            if EventOf(s, cmd).Finish? then Mails(s.sender, s.senderHost, s.locals, s.remotes, s.content) else []
  {
  }

  lemma OpenGrows(es: seq<Event>, m: int, s: Session, e: Event, s': Session)
    requires Open(es, m, s) && (e.Rcpt? || e.Aside?)
    requires s'.sender == s.sender && s'.senderHost == s.senderHost
    requires s'.locals == s.locals + (if e.Rcpt? && e.host == "localhost" then [e.user] else [])
    requires s'.remotes == s.remotes + (if e.Rcpt? && e.host != "localhost" then [e.user + "@" + e.host] else [])
    ensures Open(es + [e], m, s')
  {
    SuffixSnoc(es, e, m);
  }

  lemma OpenStarts(es: seq<Event>, s: Session, s': Session)
    requires s'.locals == [] && s'.remotes == []
    ensures Open(es + [Mail(s'.sender, s'.senderHost)], |es|, s')
  {
    assert (es + [Mail(s'.sender, s'.senderHost)])[|es| + 1..] == [];
  }

  lemma ReadingStarts(es: seq<Event>, m: int, s: Session, s': Session)
    requires Open(es, m, s) && s.content == "" && s' == s.(state := 4)
    ensures Reading(es + [DataStart], m, |es|, s')
  {
    var es' := es + [DataStart];
    assert es'[..|es|] == es && es'[|es| + 1..] == [];
  }

  lemma ReadingGrows(es: seq<Event>, m: int, d: int, s: Session, text: string)
    requires Reading(es, m, d, s)
    ensures Reading(es + [Line(text)], m, d, s.(content := s.content + text + "\n"))
  {
    var es' := es + [Line(text)];
    SuffixSnoc(es, Line(text), d);
    assert es'[..d] == es[..d];
    assert s.content + (text + "\n") == s.content + text + "\n";
  }

  lemma MailExplained(es: seq<Event>, s: Session, x: string, h: string)
    requires Explained(es, s) && s.state == 1
    ensures Explained(es + [Mail(x, h)], s.(state := 2, sender := x, senderHost := h))
  {
    hide Open, Reading;
    OpenStarts(es, s, s.(state := 2, sender := x, senderHost := h));
  }

  lemma RcptExplained(es: seq<Event>, s: Session, u: string, h: string, s': Session)
    requires Explained(es, s) && 2 <= s.state <= 3
    requires s' == if h == "localhost" then s.(state := 3, locals := s.locals + [u])
                   else s.(state := 3, remotes := s.remotes + [u + "@" + h])
    ensures Explained(es + [Rcpt(u, h)], s')
  {
    hide Open, Reading;
    var m :| Open(es, m, s);
    assert s.locals + [] == s.locals && s.remotes + [] == s.remotes;
    OpenGrows(es, m, s, Rcpt(u, h), s');
  }

  lemma DataExplained(es: seq<Event>, s: Session)
    requires Explained(es, s) && s.state == 3
    ensures Explained(es + [DataStart], s.(state := 4))
  {
    hide Open, Reading;
    var m :| Open(es, m, s);
    ReadingStarts(es, m, s, s.(state := 4));
  }

  lemma LineExplained(es: seq<Event>, s: Session, t: string)
    requires Explained(es, s) && s.state == 4
    ensures Explained(es + [Line(t)], s.(content := s.content + t + "\n"))
  {
    hide Open, Reading;
    var m, d :| Reading(es, m, d, s);
    ReadingGrows(es, m, d, s, t);
  }

  lemma AsideExplained(es: seq<Event>, s: Session, s': Session)
    requires Explained(es, s) && s.state != 4
    requires s' == s || s' == s.(quit := true) || (s.state < 2 && s' == s.(state := 1))
    ensures Explained(es + [Aside], s')
  {
    hide Open, Reading;
    if s.state >= 2 {
      var m :| Open(es, m, s);
      assert s.locals + [] == s.locals && s.remotes + [] == s.remotes;
      OpenGrows(es, m, s, Aside, s');
    }
  }

  lemma ExplainedStep(es: seq<Event>, s: Session, cmd: string)
    requires Explained(es, s)
    ensures Explained(es + [EventOf(s, cmd)], Command(s, cmd).next)
  {
    assert s.state <= 4;
    CommandEffect(s, cmd);
    hide Command, EventOf, Explained;
    match EventOf(s, cmd)
    case Mail(x, h) => MailExplained(es, s, x, h);
    case Rcpt(u, h) => RcptExplained(es, s, u, h, Command(s, cmd).next);
    case DataStart => DataExplained(es, s);
    case Line(t) => LineExplained(es, s, t);
    case Finish =>
    case Reset =>
    case Aside => AsideExplained(es, s, Command(s, cmd).next);
  }

  /** In every reachable state the session's fields are what the events since the last MAIL make them:
      recipients exist exactly in states 3 and 4, content only in state 4. */
  lemma {:induction false} SessionExplained(cmds: seq<string>)
    ensures Explained(Events(cmds), SessionAfter(cmds))
    ensures var s := SessionAfter(cmds); s.locals + s.remotes != [] <==> s.state == 3 || s.state == 4
  {
    hide Command, EventOf, Open, Reading;
    if cmds == [] {
    } else {
      var init := cmds[..|cmds| - 1];
      SessionExplained(init);
      ExplainedStep(Events(init), SessionAfter(init), cmds[|cmds| - 1]);
    }
  }

  /** One delivery for every recipient, local ones first, each with the sender and the text. */
  predicate Carry(ds: seq<Delivery>, sender: string, host: string, locals: seq<string>, remotes: seq<string>, text: string) {
    && |ds| == |locals| + |remotes|
    && (forall i :: 0 <= i < |locals| ==> ds[i] == ToMailbox(locals[i], sender, text))
    && (forall i :: 0 <= i < |remotes| ==> ds[|locals| + i] == ToRemote(remotes[i], sender + "@" + host, text))
  }

  lemma MailsCarry(sender: string, host: string, locals: seq<string>, remotes: seq<string>, text: string)
    ensures Carry(Mails(sender, host, locals, remotes, text), sender, host, locals, remotes, text)
  {
  }

  /** Each delivery carries the latest accepted sender, exactly the recipients accepted since that MAIL in
      order, and exactly the lines since DATA; and nothing else delivers. */
  lemma DeliveryIsATransaction(cmds: seq<string>, cmd: string)
    ensures var es, s := Events(cmds), SessionAfter(cmds);
            var deliveries := Command(s, cmd).deliveries;
            && (!EventOf(s, cmd).Finish? ==> deliveries == [])
            && (EventOf(s, cmd).Finish? ==> exists m, d ::
                  && 0 <= m < d < |es| && es[m].Mail? && es[d].DataStart?
                  && OnlyRecipients(es[m + 1..d]) && OnlyLines(es[d + 1..])
                  && Locals(es[m + 1..d]) + Remotes(es[m + 1..d]) != []
                  && Carry(deliveries, es[m].sender, es[m].host, Locals(es[m + 1..d]), Remotes(es[m + 1..d]), Text(es[d + 1..])))
  {
    var es, s := Events(cmds), SessionAfter(cmds);
    SessionExplained(cmds);
    CommandEffect(s, cmd);
    hide Command, EventOf, Mails, Locals, Remotes, Text;
    if EventOf(s, cmd).Finish? {
      var m, d :| Reading(es, m, d, s);
      assert es[..d][m + 1..] == es[m + 1..d];
      MailsCarry(s.sender, s.senderHost, s.locals, s.remotes, s.content);
    }
  }

  // ---- the order of commands ----

  datatype Verb = Helo | MailFrom | RcptTo | Data | Quit | Rset | Noop | Other

  function VerbOf(cmd: string): Verb {
    var action := Lower(cmd);
    if Starts(action, "helo") then Helo
    else if Starts(action, "mail from") then MailFrom
    else if Starts(action, "rcpt to") then RcptTo
    else if Starts(action, "data") then Verb.Data
    else if Starts(action, "quit") then Quit
    else if Starts(action, "rset") then Rset
    else if Starts(action, "noop") then Noop
    else Other
  }

  predicate WellFormed(v: Verb, cmd: string) {
    match v
    case Helo => |cmd| > 4
    case MailFrom => |cmd| > 10 && '@' in cmd
    case RcptTo => |cmd| > 8 && '@' in cmd
    case Other => false
    case _ => true
  }

  /** Section 4.1.4 of RFC 5321, as this server has it: greeting, MAIL, one or more RCPT, DATA. */
  predicate InOrder(v: Verb, state: nat) {
    match v
    case Helo => state <= 1
    case MailFrom => state == 1
    case RcptTo => state == 2 || state == 3
    case Data => state == 3
    case Quit => true
    case _ => state >= 1
  }

  function Accepted(v: Verb): string {
    match v
    case Helo => HELO_MSG
    case Data => DATA_START_MSG
    case Quit => BYE_MSG
    case _ => OK_MSG
  }

  /** Outside message data a command is answered 500, 503 or its success, by its form and its place in the order;
      it changes the session only when it succeeds. Inside message data only the closing dot is answered. */
  lemma OrderRules(s: Session, cmd: string)
    requires s.state <= 4
    ensures var a, v := Command(s, cmd), VerbOf(cmd);
            && (s.state != 4 ==>
                  && a.reply == (if !WellFormed(v, cmd) then ERR_MSG else if !InOrder(v, s.state) then BAD_MSG else Accepted(v))
                  && (a.next != s ==> WellFormed(v, cmd) && InOrder(v, s.state))
                  && (a.next.quit != s.quit ==> v == Quit))
            && (s.state == 4 ==> a.reply == (if cmd == "." then OK_MSG else "") && a.next.quit == s.quit)
  {
    hide Starts, Lower, Find, User, Host, Mails;
    AtSign(cmd);
  }

  lemma AtSign(cmd: string)
    ensures Find(cmd, '@') >= 0 <==> '@' in cmd
  {
  }

  /** QUIT is a command only outside message data. */
  predicate Quits(before: seq<string>, line: string) {
    VerbOf(line).Quit? && SessionAfter(before).state != 4
  }

  lemma SessionSnoc(before: seq<string>, line: string)
    ensures SessionAfter(before + [line]) == Command(SessionAfter(before), line).next
    ensures SessionAfter(before + [line]).quit <==> SessionAfter(before).quit || Quits(before, line)
  {
    assert (before + [line])[..|before|] == before;
    SessionExplained(before);
    QuitRule(SessionAfter(before), line);
  }

  lemma QuitRule(s: Session, cmd: string)
    requires s.state <= 4
    ensures Command(s, cmd).next.quit <==> s.quit || (VerbOf(cmd).Quit? && s.state != 4)
  {
    hide Starts, Lower, Find, User, Host, Mails;
  }
}
