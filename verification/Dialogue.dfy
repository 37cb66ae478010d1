/** What is said to a host or a local mailer and what comes back, and what that means: for the recipients, and for the
  * order of the commands (sections 3.3 and 4.1.4 of RFC 2821).
  */
module Dialogue {
  import opened Recipients

  datatype Command = Connect | Ehlo | Helo | Starttls | MailFrom | RcptTo(i: nat) | Data | DataEof | Rset | Quit

  /** What comes back for a command: the first digit of the reply, where any other one counts as 4, or nothing. */
  datatype Reply = Two | Three | Four | Five | Nothing

  /** The exit code of a mailer: EXIT_SUCCESS, EX_DATAERR, EX_NOUSER, or any other one. */
  datatype Exit = Success | DataErr | NoUser | OtherExit

  /** A command with its reply, the end of a connection, a mailer for a recipient, or the next message. */
  datatype Said = Smtp(cmd: Command, reply: Reply) | Closed | Mailer(i: nat, code: Exit) | NewMessage

  // ---------- What it means for a recipient ----------

  /** The last word on a recipient: the reply to its RCPT in the last transaction, or the exit code of its mailer. */
  ghost function Verdict(log: seq<Said>, i: nat): Status {
    if log == [] then Tempfail
    else
      var rest := log[..|log| - 1];
      match log[|log| - 1]
      case NewMessage => Tempfail
      case Smtp(MailFrom, _) => Tempfail
      case Smtp(RcptTo(j), d) =>
        if j != i then Verdict(rest, i) else if d == Two then Accepted else if d == Five then Failed else Tempfail
      case Mailer(j, code) =>
        if j != i then Verdict(rest, i)
        else if code == Success then Accepted
        else if code in {DataErr, NoUser} then Failed
        else Tempfail
      case _ => Verdict(rest, i)
  }

  /** The recipients for whom the message was handed over: their RCPT was accepted in a transaction whose text was
    * accepted, or their mailer has succeeded.
    */
  ghost function Acknowledged(log: seq<Said>, n: nat): set<nat> {
    if log == [] then {}
    else
      var rest := log[..|log| - 1];
      match log[|log| - 1]
      case NewMessage => {}
      case Smtp(DataEof, Two) => Acknowledged(rest, n) + set i: nat | i < n && Verdict(rest, i) == Accepted
      case Mailer(i, Success) => Acknowledged(rest, n) + if i < n then {i} else {}
      case _ => Acknowledged(rest, n)
  }

  lemma OneMore(log: seq<Said>, x: Said)
    ensures var more := log + [x]; more[..|more| - 1] == log && more[|more| - 1] == x
  {}

  /** A 5xx reply turned the message as a whole down in the last transaction. */
  ghost predicate TurnedDown(log: seq<Said>) {
    log != [] &&
    match log[|log| - 1]
    case NewMessage => false
    case Smtp(MailFrom, d) => d == Five
    case Smtp(cmd, d) => (cmd in {Data, DataEof} && d == Five) || TurnedDown(log[..|log| - 1])
    case _ => TurnedDown(log[..|log| - 1])
  }

  /** The same for everyone. */
  ghost predicate Alike(a: seq<Said>, b: seq<Said>) {
    && (forall n :: Acknowledged(a, n) == Acknowledged(b, n)) && (forall i :: Verdict(a, i) == Verdict(b, i))
    && (TurnedDown(a) <==> TurnedDown(b))
  }

  predicate AboutConnection(x: Said) {
    x.Closed? || (x.Smtp? && x.cmd in {Connect, Ehlo, Helo, Starttls, Rset, Quit})
  }

  /** Greetings, RSET, and the end of a connection change nothing for the message. */
  lemma ConnectionsDoNotMatter(log: seq<Said>, x: Said)
    requires AboutConnection(x)
    ensures Alike(log, log + [x])
  {
    OneMore(log, x);
  }

  /** MAIL begins anew. */
  lemma MailBegins(log: seq<Said>, d: Reply)
    ensures var more := log + [Smtp(MailFrom, d)];
            && (forall i :: Verdict(more, i) == Tempfail) && (forall n :: Acknowledged(more, n) == Acknowledged(log, n))
            && (TurnedDown(more) <==> d == Five)
  {
    OneMore(log, Smtp(MailFrom, d));
  }

  lemma RcptAnswered(log: seq<Said>, i: nat, d: Reply)
    ensures var more := log + [Smtp(RcptTo(i), d)];
            && (forall j :: j != i ==> Verdict(more, j) == Verdict(log, j))
            && (Verdict(more, i) == Accepted <==> d == Two) && (Verdict(more, i) == Failed <==> d == Five)
            && (forall n :: Acknowledged(more, n) == Acknowledged(log, n)) && (TurnedDown(more) <==> TurnedDown(log))
  {
    OneMore(log, Smtp(RcptTo(i), d));
  }

  lemma DataAnswered(log: seq<Said>, d: Reply)
    ensures var more := log + [Smtp(Data, d)];
            && (forall i :: Verdict(more, i) == Verdict(log, i))
            && (forall n :: Acknowledged(more, n) == Acknowledged(log, n))
            && (TurnedDown(more) <==> TurnedDown(log) || d == Five)
  {
    OneMore(log, Smtp(Data, d));
  }

  lemma TextAnswered(log: seq<Said>, d: Reply)
    ensures var more := log + [Smtp(DataEof, d)];
            && (forall i :: Verdict(more, i) == Verdict(log, i))
            && (forall n :: Acknowledged(more, n) ==
                  Acknowledged(log, n) + if d == Two then (set i: nat | i < n && Verdict(log, i) == Accepted) else {})
            && (TurnedDown(more) <==> TurnedDown(log) || d == Five)
  {
    OneMore(log, Smtp(DataEof, d));
  }

  lemma MailerExited(log: seq<Said>, i: nat, code: Exit)
    ensures var more := log + [Mailer(i, code)];
            && (forall j :: j != i ==> Verdict(more, j) == Verdict(log, j))
            && (Verdict(more, i) == Accepted <==> code == Success)
            && (Verdict(more, i) == Failed <==> code in {DataErr, NoUser})
            && (forall n :: Acknowledged(more, n) ==
                  Acknowledged(log, n) + if code == Success && i < n then {i} else {})
            && (TurnedDown(more) <==> TurnedDown(log))
  {
    OneMore(log, Mailer(i, code));
  }

  lemma NextBegins(log: seq<Said>)
    ensures var more := log + [NewMessage];
            && (forall i :: Verdict(more, i) == Tempfail) && !TurnedDown(more)
            && (forall n :: Acknowledged(more, n) == {})
  {
    OneMore(log, NewMessage);
  }

  // ---------- The order of the commands ----------

  /** Where a connection is; `k` recipients have been offered, and `some` says that one of them was accepted. */
  datatype Phase =
    | Away | Greeted | Ready | Mail(k: nat, some: bool) | Text(k: nat) | Sent(k: nat) | Aborted | Refused | OutOfOrder

  /** An open connection on which RSET can be said, and then the next message be sent. */
  ghost predicate Reusable(p: Phase) {
    p.Ready? || p.Mail? || p.Sent? || p.Aborted?
  }

  ghost function After(p: Phase, cmd: Command, d: Reply): Phase {
    match cmd
    case Connect => if !p.Away? then OutOfOrder else if d == Two then Greeted else Refused
    case Ehlo => if !p.Greeted? then OutOfOrder else if d == Two then Ready else Greeted
    case Helo => if !p.Greeted? && !p.Ready? then OutOfOrder else if d == Two then Ready else Refused
    case MailFrom => if !p.Ready? then OutOfOrder else if d == Two then Mail(0, false) else Aborted
    case RcptTo(i) => if !p.Mail? || p.k != i then OutOfOrder else Mail(i + 1, p.some || d == Two)
    case Data => if !p.Mail? || !p.some then OutOfOrder else if d == Three then Text(p.k) else Aborted
    case DataEof => if !p.Text? then OutOfOrder else Sent(p.k)
    case Rset => if !Reusable(p) then OutOfOrder else if d == Two then Ready else Refused
    case _ => if p.Away? then OutOfOrder else Refused
  }

  ghost function PhaseOf(log: seq<Said>): Phase {
    if log == [] then Away
    else
      var p := PhaseOf(log[..|log| - 1]);
      match log[|log| - 1]
      case Closed => if p == OutOfOrder then p else Away
      case Smtp(cmd, d) => NextOf(p, cmd, d)
      case _ => p
  }

  /** A command that is out of order stays so. */
  ghost function NextOf(p: Phase, cmd: Command, d: Reply): Phase {
    if p == OutOfOrder then p else After(p, cmd, d)
  }

  lemma NextPhase(log: seq<Said>, x: Said)
    ensures var p := PhaseOf(log);
            PhaseOf(log + [x]) ==
              if x.Smtp? then NextOf(p, x.cmd, x.reply) else if x.Closed? && p != OutOfOrder then Away else p
  {
    OneMore(log, x);
  }
}
