/** Delivering one message to a host: smtp_reply and smtp_send (smtp.c:190-560 and 745-925), deliver_local and
  * deliver_remote (queue.c:1462-1679).  Replies, connections and DNS answers are nondeterministic.
  */
module Delivery {
  import opened Options
  import opened Recipients
  import opened Dialogue
  import HS = HostSearch

  /** `hq_status` */
  datatype HostStatus = Unknown | Mx | Down | Bounce | Punt | PuntDown | Local | Supressed | Bitbucket

  /** What an attempt can make of the status of a host; for a prisoner there is none. */
  predicate Leaves(before: HostStatus, prisoner: bool, after: HostStatus) {
    || after == before
    || (!prisoner && ((before == Mx && after in {Down, Bounce}) || (before == Punt && after == PuntDown)))
  }

  /** What is to be done with a message after the attempt (queue.c:1210-1362). */
  datatype Judgement = Judgement(bounces: bool, deletes: bool, rewrites: bool)

  /** A host that bounces gets its mail bounced, the bit bucket takes all, and where nothing was tried the message stays
    * as it is, unless it is too old.
    */
  predicate Allows(host: HostStatus, prisoner: bool, tooOld: bool, j: Judgement) {
    if host == Bounce then j == Judgement(true, true, false)
    else if host == Bitbucket then j == Judgement(false, true, false)
    else if host in {Down, Supressed} || (prisoner && host in {Local, Mx, Punt}) then
      j == Judgement(tooOld, tooOld, false)
    else (j.rewrites ==> !j.deletes) && (j.bounces ==> j.deletes || j.rewrites) && (tooOld ==> j.deletes)
  }

  datatype Result = Ok | Error | BadConnection

  ghost predicate AnsweredBy(rs: seq<Rcpt>, log: seq<Said>) {
    forall i: nat :: i < |rs| ==> rs[i].status == Verdict(log, i)
  }

  /** One recipient gets its answer. */
  lemma OneAnswered(rs: seq<Rcpt>, before: seq<Said>, log: seq<Said>, i: nat, st: Status)
    requires i < |rs| && AnsweredBy(rs, before) && rs[i].status == Tempfail
    requires Verdict(log, i) == st && forall j :: j != i ==> Verdict(log, j) == Verdict(before, j)
    ensures var now := rs[i := rs[i].(status := st)];
            && SameAddresses(rs, now) && AnsweredBy(now, log)
            && With(now, Accepted) == With(rs, Accepted) + if st == Accepted then {i} else {}
  {}

  /** ... from its mailer. */
  lemma OneMailed(rs: seq<Rcpt>, log: seq<Said>, i: nat, code: Exit, st: Status)
    requires i < |rs| && AnsweredBy(rs, log) && rs[i].status == Tempfail
    requires Acknowledged(log, |rs|) == With(rs, Accepted)
    requires st == if code == Success then Accepted else if code in {DataErr, NoUser} then Failed else Tempfail
    ensures var now, more := rs[i := rs[i].(status := st)], log + [Mailer(i, code)];
            && SameAddresses(rs, now) && AnsweredBy(now, more) && Acknowledged(more, |now|) == With(now, Accepted)
            && PhaseOf(more) == PhaseOf(log) && (TurnedDown(more) <==> TurnedDown(log))
  {
    MailerExited(log, i, code);
    NextPhase(log, Mailer(i, code));
    OneAnswered(rs, log, log + [Mailer(i, code)], i, st);
  }

  ghost function Everyone(n: nat): (r: set<nat>)
    ensures forall i: nat :: i in r <==> i < n
  {
    if n == 0 then {} else Everyone(n - 1) + {n - 1}
  }

  /** `struct deliver`, with the flags and recipients of its envelope and the status of its host queue.  `log` is what
    * has been said, over all messages of the queue.
    */
  class Deliver {
    const search: HS.HostSearch
    var host: HostStatus
    var rcpts: seq<Rcpt>
    var accepted: nat
    var failed: nat
    var tempfailed: nat
    var delivered: bool
    var bounce: bool
    var tempfail: bool
    var connected: bool
    ghost var log: seq<Said>

    constructor (search: HS.HostSearch, host: HostStatus, rcpts: seq<Rcpt>)
      requires Untried(rcpts)
      ensures this.search == search && this.host == host && this.rcpts == rcpts && Fresh() && !connected && Linked()
    {
      this.search, this.host, this.rcpts := search, host, rcpts;
      accepted, failed, tempfailed, delivered, bounce, tempfail, connected := 0, 0, 0, false, false, false, false;
      log := [];
      new;
      UntriedCounts(rcpts);
    }

    /** The recipients for whom the message has been handed over, by what was said. */
    ghost function Handed(): set<nat>
      reads `log, `rcpts
    {
      Acknowledged(log, |rcpts|)
    }

    /** The message has been handed over for everyone. */
    ghost predicate Taken()
      reads `log, `rcpts
    {
      Everyone(|rcpts|) <= Handed()
    }

    ghost predicate TakenIfDelivered()
      reads `log, `rcpts, `delivered
    {
      if delivered then Taken() else Handed() == {}
    }

    /** The statuses are the last words on the recipients. */
    ghost predicate Answered()
      reads `log, `rcpts
    {
      AnsweredBy(rcpts, log)
    }

    /** Nothing has been tried yet (queue.c:1109-1116). */
    ghost predicate Fresh()
      reads `rcpts, `accepted, `failed, `tempfailed, `delivered, `bounce, `tempfail, `log
    {
      && Untried(rcpts) && Counted() && tempfailed == 0 && !delivered && !bounce && !tempfail
      && Handed() == {} && Answered() && !TurnedDown(log)
    }

    /** The counters say what the statuses say. */
    ghost predicate Counted()
      reads `rcpts, `accepted, `failed
    {
      accepted == Count(rcpts, Accepted) && failed == Count(rcpts, Failed)
    }

    /** A delivered message has been handed over for exactly the recipients that were accepted, any other for nobody. */
    ghost predicate Settled()
      reads `rcpts, `delivered, `log
    {
      Handed() == if delivered then With(rcpts, Accepted) else {}
    }

    /** Between two messages the connection is open and can be reset, or there is none. */
    ghost predicate Linked()
      reads `connected, `log
    {
      if connected then Reusable(PhaseOf(log)) else PhaseOf(log).Away?
    }

    /** smtp_consume_banner (smtp.c:65-179): the rest of a reply can be cut off or malformed, or memory runs out. */
    method ConsumeBanner() returns (r: Result)
    {
      r :| true;
    }

    /** A command is said, and its reply is read. */
    method Say(cmd: Command) returns (d: Reply)
      modifies `log
      ensures log == old(log) + [Smtp(cmd, d)] && PhaseOf(log) == NextOf(old(PhaseOf(log)), cmd, d)
    {
      d :| true;
      NextPhase(log, Smtp(cmd, d));
      log := log + [Smtp(cmd, d)];
    }

    /** smtp_reply (smtp.c:190-560) for the commands that concern the connection only: a failure to greet makes the
      * host bounce its mail.
      */
    method ConnectionReply(cmd: Command) returns (r: Result, d: Reply)
      requires cmd in {Connect, Ehlo, Helo, Starttls, Rset, Quit}
      modifies `host, `log
      ensures log == old(log) + [Smtp(cmd, d)] && PhaseOf(log) == NextOf(old(PhaseOf(log)), cmd, d)
      ensures Alike(old(log), log)
      ensures host == if cmd == Connect && old(host) == Down && d == Five then Bounce else old(host)
      ensures (d == Nothing ==> r == BadConnection) && (r == Ok && cmd != Quit ==> d == Two)
    {
      d := Say(cmd);
      ConnectionsDoNotMatter(old(log), Smtp(cmd, d));
      if d == Nothing { return BadConnection, d; }
      if d == Two {
        if cmd == Connect {
          var loop: bool := *; // the greeting names this host, or no host at all
          if loop { return Error, d; }
        }
        r := ConsumeBanner();
        return;
      }
      if cmd == Connect && d == Five && host == Down {
        host := Bounce;
      }
      r := ConsumeBanner();
      if r == Ok && cmd != Quit {
        r := Error;
      }
    }

    /** smtp_reply for the sender and for the beginning of the text: the message as a whole goes on, waits or
      * bounces.
      */
    method MessageReply(cmd: Command) returns (r: Result, d: Reply)
      requires cmd in {MailFrom, Data}
      modifies `bounce, `tempfail, `log
      ensures log == old(log) + [Smtp(cmd, d)] && PhaseOf(log) == NextOf(old(PhaseOf(log)), cmd, d)
      ensures bounce == (old(bounce) || d == Five)
      ensures tempfail == (old(tempfail) || (d !in {Five, Nothing} && d != if cmd == Data then Three else Two))
      ensures d == Nothing ==> r == BadConnection
    {
      d := Say(cmd);
      if d == Nothing { return BadConnection, d; }
      if d == Five {
        bounce := true;
      } else if d == Four || (cmd == MailFrom && d == Three) || (cmd == Data && d == Two) {
        tempfail := true; // 2xx is an error for DATA, 3xx is one for everything else
      }
      r := ConsumeBanner();
    }

    /** smtp_reply for one recipient: a 2xx reply accepts it, a 5xx reply refuses it, and after any other one it is to
      * be tried again; one counter follows.
      */
    method RcptReply(i: nat) returns (r: Result, d: Reply)
      requires i < |rcpts| && rcpts[i].status == Tempfail && Counted() && Answered()
      modifies `rcpts, `accepted, `failed, `tempfailed, `log
      ensures log == old(log) + [Smtp(RcptTo(i), d)] && PhaseOf(log) == NextOf(old(PhaseOf(log)), RcptTo(i), d)
      ensures Counted() && Answered() && SameAddresses(old(rcpts), rcpts) && Handed() == old(Handed())
      ensures TurnedDown(log) <==> old(TurnedDown(log))
      ensures (rcpts[i].status == Accepted <==> d == Two) && (rcpts[i].status == Failed <==> d == Five)
      ensures forall j :: 0 <= j < |rcpts| && j != i ==> rcpts[j] == old(rcpts[j])
      ensures accepted == old(accepted) + if d == Two then 1 else 0
      ensures failed == old(failed) + if d == Five then 1 else 0
      ensures tempfailed == old(tempfailed) + if d in {Three, Four} then 1 else 0
      ensures d == Nothing ==> r == BadConnection
    {
      d := Say(RcptTo(i));
      RcptAnswered(old(log), i, d);
      if d == Nothing { return BadConnection, d; }
      var st := if d == Two then Accepted else if d == Five then Failed else Tempfail;
      OneAnswered(old(rcpts), old(log), log, i, st);
      Note(i, st);
      r := ConsumeBanner();
    }

    /** The answer for one recipient: it is accepted or refused for good, or to be tried again. */
    method Note(i: nat, st: Status)
      requires i < |rcpts| && rcpts[i].status == Tempfail && Counted()
      modifies `rcpts, `accepted, `failed, `tempfailed
      ensures Counted() && rcpts == old(rcpts)[i := old(rcpts)[i].(status := st)]
      ensures accepted == old(accepted) + if st == Accepted then 1 else 0
      ensures failed == old(failed) + if st == Failed then 1 else 0
      ensures tempfailed == old(tempfailed) + if st == Tempfail then 1 else 0
    {
      match st {
        case Accepted =>
          SetStatus(i, Accepted);
          accepted := accepted + 1;
        case Failed =>
          SetStatus(i, Failed);
          failed := failed + 1;
        case Tempfail =>
          tempfailed := tempfailed + 1;
      }
    }

    method SetStatus(i: nat, st: Status)
      requires i < |rcpts| && rcpts[i].status == Tempfail && st != Tempfail
      modifies `rcpts
      ensures rcpts == old(rcpts)[i := old(rcpts)[i].(status := st)]
      ensures forall what :: what != Tempfail ==>
          Count(rcpts, what) == old(Count(rcpts, what)) + if what == st then 1 else 0
    {
      forall what | what != Tempfail
        ensures Count(rcpts[i := rcpts[i].(status := st)], what) == Count(rcpts, what) + if what == st then 1 else 0
      {
        CountReply(rcpts, i, st, what);
      }
      rcpts := rcpts[i := rcpts[i].(status := st)];
    }

    /** smtp_reply for the end of the text: only a 2xx reply delivers the message. */
    method TextReply() returns (r: Result, d: Reply)
      requires Answered()
      modifies `delivered, `bounce, `tempfail, `log
      ensures log == old(log) + [Smtp(DataEof, d)] && PhaseOf(log) == NextOf(old(PhaseOf(log)), DataEof, d)
      ensures delivered == (old(delivered) || d == Two)
      ensures Answered() && Handed() == old(Handed()) + if d == Two then With(rcpts, Accepted) else {}
      ensures TurnedDown(log) <==> old(TurnedDown(log)) || d == Five
      ensures bounce == (old(bounce) || d == Five) && tempfail == (old(tempfail) || d in {Three, Four})
      ensures d == Nothing ==> r == BadConnection
    {
      d := Say(DataEof);
      TextAnswered(old(log), d);
      if d == Nothing { return BadConnection, d; }
      if d == Two {
        delivered := true;
      } else if d == Five {
        bounce := true;
      } else {
        tempfail := true;
      }
      r := ConsumeBanner();
    }

    /** smtp_connect (smtp.c:563-729) without TLS. */
    method SmtpConnect() returns (r: Result)
      requires PhaseOf(log).Away?
      modifies `host, `log
      ensures host == old(host) || (old(host) == Down && host == Bounce && r != Ok)
      ensures Alike(old(log), log) && |log| > |old(log)|
      ensures if r == Ok then PhaseOf(log).Ready? else !PhaseOf(log).OutOfOrder? && !PhaseOf(log).Away?
      ensures r == Error ==> log[|log| - 1].Smtp? && log[|log| - 1].cmd in {Connect, Helo}
    {
      var d;
      r, d := ConnectionReply(Connect);
      if r != Ok { return; }
      r, d := ConnectionReply(Ehlo);
      if r == Error {
        r, d := ConnectionReply(Helo);
      }
    }

    /** smtp.c:780-814: the recipients are offered one by one.  A punt host has to accept all of them. */
    method OfferRcpts() returns (r: Result, refused: bool)
      requires Untried(rcpts) && Counted() && Answered() && PhaseOf(log) == Mail(0, false) && accepted == 0
      modifies `rcpts, `accepted, `failed, `tempfailed, `log
      ensures Counted() && Answered() && SameAddresses(old(rcpts), rcpts) && Handed() == old(Handed())
      ensures (TurnedDown(log) <==> old(TurnedDown(log))) && |log| >= |old(log)|
      ensures PhaseOf(log).Mail? && PhaseOf(log).some == (accepted > 0)
      ensures r == Ok && !refused ==> PhaseOf(log) == Mail(|rcpts|, accepted > 0)
      ensures refused ==> r == Ok && host == PuntDown
      ensures r == Ok && !refused && host == PuntDown ==> forall x :: x in rcpts ==> x.status == Accepted
      ensures host == PuntDown && old(failed) == 0 ==> failed <= 1
    {
      refused := false;
      for i := 0 to |rcpts|
        invariant |rcpts| == |old(rcpts)| && Counted() && Answered() && SameAddresses(old(rcpts), rcpts)
        invariant Handed() == old(Handed()) && PhaseOf(log) == Mail(i, accepted > 0)
        invariant (TurnedDown(log) <==> old(TurnedDown(log))) && |log| >= |old(log)|
        invariant forall j :: i <= j < |rcpts| ==> rcpts[j].status == Tempfail
        invariant host == PuntDown ==> failed == old(failed) && forall j :: 0 <= j < i ==> rcpts[j].status == Accepted
      {
        var d;
        r, d := RcptReply(i);
        if r != Ok { return; }
        if host == PuntDown && rcpts[i].status != Accepted { return Ok, true; }
      }
      r := Ok;
    }

    /** How a part of smtp_send leaves the connection. */
    ghost predicate Ending(r: Result)
      reads `log
    {
      if r == Ok then Reusable(PhaseOf(log)) else !PhaseOf(log).OutOfOrder? && !PhaseOf(log).Away?
    }

    /** smtp.c:765-779: MAIL, and whether it goes on. */
    method BeginTransaction() returns (r: Result, go: bool)
      requires Untried(rcpts) && !bounce && !tempfail && PhaseOf(log).Ready?
      modifies `bounce, `tempfail, `log
      ensures Answered() && Handed() == old(Handed()) && (bounce <==> TurnedDown(log)) && |log| > |old(log)|
      ensures go <==> r == Ok && !bounce && !tempfail
      ensures if go then PhaseOf(log) == Mail(0, false) else Ending(r) && (r == Ok ==> PhaseOf(log).Aborted?)
      ensures !PhaseOf(log).Sent? && log[|log| - 1].Smtp? && log[|log| - 1].cmd == MailFrom
    {
      var d;
      r, d := MessageReply(MailFrom);
      MailBegins(old(log), d);
      go := r == Ok && !bounce && !tempfail;
    }

    /** smtp.c:780-822: the recipients; without a single one that is accepted the message is done with. */
    method OfferAll() returns (r: Result, go: bool)
      requires Untried(rcpts) && Counted() && Answered() && PhaseOf(log) == Mail(0, false) && !bounce
      requires !TurnedDown(log)
      modifies `rcpts, `accepted, `failed, `tempfailed, `delivered, `log
      ensures Counted() && Answered() && SameAddresses(old(rcpts), rcpts) && Handed() == old(Handed())
      ensures !TurnedDown(log)
      ensures |log| >= |old(log)| && PhaseOf(log).Mail? && (go ==> r == Ok && delivered == old(delivered))
      ensures go ==> PhaseOf(log) == Mail(|rcpts|, true) && accepted > 0
      ensures !go && !old(delivered) && delivered ==> r == Ok && accepted == 0 && PhaseOf(log) == Mail(|rcpts|, false)
      ensures (!go && host != PuntDown && r == Ok) || old(delivered) ==> delivered
      ensures host == PuntDown ==> failed <= 1 && (go ==> forall x :: x in rcpts ==> x.status == Accepted)
      ensures host == PuntDown && delivered && !old(delivered) ==> rcpts == []
    {
      UntriedCounts(rcpts);
      var refused;
      r, refused := OfferRcpts();
      go := r == Ok && !refused && accepted > 0;
      if r == Ok && !refused && accepted == 0 {
        NoneAccepted(rcpts);
        assert host == PuntDown && rcpts != [] ==> 0 in With(rcpts, Accepted);
        delivered := true;
      }
    }

    /** smtp_send (smtp.c:745-925); the text itself is Relay.SendData. */
    method SmtpSend() returns (r: Result)
      requires Untried(rcpts) && Counted() && !bounce && !tempfail && PhaseOf(log).Ready?
      modifies `rcpts, `accepted, `failed, `tempfailed, `delivered, `bounce, `tempfail, `log
      ensures Counted() && Answered() && SameAddresses(old(rcpts), rcpts) && |log| > |old(log)| && Ending(r)
      ensures PhaseOf(log).Sent? ==> PhaseOf(log).k == |rcpts|
      ensures !old(delivered) ==> (old(Handed()) == {} ==> Settled()) && (delivered ==> !bounce)
      ensures bounce <==> TurnedDown(log)
      ensures !old(delivered) && host != PuntDown && r == Ok ==>
          (delivered <==> log[|log| - 1] == Smtp(DataEof, Two) || PhaseOf(log) == Mail(|rcpts|, false))
      ensures !old(delivered) && delivered && r != Ok ==> accepted > 0
      ensures r == Ok && !delivered && host != PuntDown ==> bounce || tempfail
      ensures old(Handed()) <= Handed() && (old(delivered) ==> delivered)
      ensures host == PuntDown ==> failed <= 1 && (delivered && !old(delivered) ==> Taken())
    {
      var go;
      UntriedCounts(rcpts);
      NoneAccepted(rcpts);
      r, go := BeginTransaction();
      if !go { return; }
      r, go := OfferAll();
      if !go {
        if accepted == 0 { NoneAccepted(rcpts); }
        return;
      }
      r := SendText();
    }

    /** smtp.c:825-922: DATA, the text, and the end of it. */
    method SendText() returns (r: Result)
      requires Answered() && !bounce && !tempfail && PhaseOf(log) == Mail(|rcpts|, true) && !TurnedDown(log)
      modifies `delivered, `bounce, `tempfail, `log
      ensures Answered() && (bounce <==> TurnedDown(log)) && |log| > |old(log)|
      ensures var acknowledged := log[|log| - 1] == Smtp(DataEof, Two);
              && delivered == (old(delivered) || acknowledged)
              && Handed() == old(Handed()) + (if acknowledged then With(rcpts, Accepted) else {})
              && (acknowledged ==> !bounce)
      ensures Ending(r)
      ensures (PhaseOf(log).Sent? ==> PhaseOf(log).k == |rcpts|) && PhaseOf(log) != Mail(|rcpts|, false)
      ensures r == Ok && !delivered ==> bounce || tempfail
    {
      var d;
      r, d := MessageReply(Data);
      DataAnswered(old(log), d);
      if r != Ok || bounce || tempfail { return; }
      var written: bool := *;
      if !written { return BadConnection; }
      r, d := TextReply();
    }

    /** deliver_local (queue.c:1462-1524): the exit code of the mailer decides for every recipient. */
    method DeliverLocal()
      requires Fresh()
      modifies `rcpts, `accepted, `failed, `tempfailed, `delivered, `log
      ensures Counted() && Settled() && Answered() && delivered && SameAddresses(old(rcpts), rcpts)
      ensures Handed() == With(rcpts, Accepted) && PhaseOf(log) == old(PhaseOf(log)) && !TurnedDown(log)
      ensures |log| == |old(log)| + |rcpts| && log[..|old(log)|] == old(log)
      ensures forall k :: |old(log)| <= k < |log| ==> log[k].Mailer? && log[k].i == k - |old(log)|
    {
      for i := 0 to |rcpts|
        invariant |rcpts| == |old(rcpts)| && Counted() && Answered() && SameAddresses(old(rcpts), rcpts)
        invariant forall j :: i <= j < |rcpts| ==> rcpts[j].status == Tempfail
        invariant Handed() == With(rcpts, Accepted) && PhaseOf(log) == old(PhaseOf(log)) && !TurnedDown(log)
        invariant |log| == |old(log)| + i && log[..|old(log)|] == old(log)
        invariant forall k :: |old(log)| <= k < |log| ==> log[k].Mailer? && log[k].i == k - |old(log)|
      {
        RunMailer(i);
      }
      delivered := true;
    }

    /** One recipient: the mailer has succeeded, has failed for good, or is to be run again. */
    method RunMailer(i: nat)
      requires i < |rcpts| && rcpts[i].status == Tempfail && Counted() && Answered()
      requires Handed() == With(rcpts, Accepted)
      modifies `rcpts, `accepted, `failed, `tempfailed, `log
      ensures Counted() && Answered() && SameAddresses(old(rcpts), rcpts) && Handed() == With(rcpts, Accepted)
      ensures forall j :: 0 <= j < |rcpts| && j != i ==> rcpts[j] == old(rcpts[j])
      ensures PhaseOf(log) == old(PhaseOf(log)) && (TurnedDown(log) <==> old(TurnedDown(log)))
      ensures exists code :: log == old(log) + [Mailer(i, code)]
    {
      var code: Exit :| true;
      var st := if code == Success then Accepted else if code in {DataErr, NoUser} then Failed else Tempfail;
      OneMailed(rcpts, log, i, code, st);
      log := log + [Mailer(i, code)];
      Note(i, st);
    }

    /** env_clear_errors (envelope.c:262-285) */
    method ClearErrors()
      modifies `rcpts, `bounce, `tempfail
      ensures rcpts == Cleared(old(rcpts)) && !bounce && !tempfail
    {
      rcpts, bounce, tempfail := Cleared(rcpts), false, false;
    }

    /** queue.c:1604-1608 */
    method StartAfresh()
      modifies `rcpts, `accepted, `failed, `tempfailed, `bounce, `tempfail
      ensures Untried(rcpts) && Counted() && !bounce && !tempfail && rcpts == Cleared(old(rcpts))
    {
      ClearErrors();
      accepted, failed, tempfailed := 0, 0, 0;
      UntriedCounts(rcpts);
    }

    ghost predicate Trying()
      reads `host
    {
      host == Down || host == PuntDown
    }

    /** What is known about a message for a regular host that no attempt has settled. */
    ghost predicate Unsettled()
      reads `rcpts, `failed, `delivered, `bounce, `log
    {
      !delivered && failed == 0 && Handed() == {} && Answered() && (bounce <==> TurnedDown(log))
    }

    /** One connection, new or already open, and one attempt to send the message over it (queue.c:1593-1628).
      * `movement` says that some recipient was accepted in a delivery or refused for good.
      */
    method Attempt() returns (r: Result, movement: bool)
      requires Trying() && Counted() && Linked() && (host == Down ==> Unsettled())
      modifies `host, `rcpts, `accepted, `failed, `tempfailed, `delivered, `bounce, `tempfail, `connected, `log
      ensures Counted() && SameAddresses(old(rcpts), rcpts) && |log| > |old(log)|
      ensures Ending(r)
      ensures host == old(host) || (old(host) == Down && host == Bounce && r != Ok && !movement)
      ensures old(host) == Down ==> (movement <==> failed > 0 || (delivered && accepted > 0))
      ensures old(host) == Down ==> Settled() && Answered() && (bounce <==> TurnedDown(log))
      ensures old(host) == Down ==> (delivered ==> !bounce) && (delivered && r != Ok ==> movement)
      ensures old(host) == Down && r == Ok && !delivered ==> bounce || tempfail
      ensures old(host) == PuntDown && old(TakenIfDelivered()) ==> TakenIfDelivered()
      ensures old(host) == PuntDown && r == Ok ==> failed <= 1 && Answered()
      ensures connected
    {
      movement := false;
      if connected {
        var d;
        r, d := ConnectionReply(Rset);
      } else {
        connected := true;
        r := SmtpConnect();
      }
      assert Acknowledged(log, |rcpts|) == Acknowledged(old(log), |rcpts|);
      if r != Ok { return; }
      StartAfresh();
      r := SmtpSend();
      movement := failed > 0 || (delivered && accepted > 0);
    }

    /** What deliver_remote leaves behind when the message was not sent to the punt host. */
    ghost predicate Attempted()
      reads `rcpts, `accepted, `failed, `delivered, `bounce, `log
    {
      Counted() && Settled() && Answered() && (delivered ==> !bounce)
    }

    /** What it leaves behind when the punt host has answered: the statuses are cleared, but not the counters
      * (queue.c:1637-1639).  The host has taken the message for everyone, or it has refused at most one recipient.
      */
    ghost predicate Punted()
      reads `rcpts, `failed, `delivered, `bounce, `log
    {
      && Untried(rcpts) && !bounce && TakenIfDelivered() && failed <= 1
      && (|rcpts| == 1 ==> (failed == 1 <==> Verdict(log, 0) == Failed))
    }

    /** What holds between two attempts. */
    ghost predicate Looping(punt: bool)
      reads this, search
    {
      && host == (if punt then PuntDown else Down) && Counted() && Linked()
      && (if punt then TakenIfDelivered() else Unsettled())
      && search.Ready(punt) && (search.result.None? ==> !connected)
    }

    /** How deliver_remote may end. */
    ghost predicate Ended(punt: bool)
      reads this, search
    {
      && search.Ready(punt) && Linked() && (host in {Mx, Punt} && search.result.None? ==> !connected)
      && (if punt then host == PuntDown || (host == Punt && Punted()) else host in {Mx, Down, Bounce} && Attempted())
      && (!punt ==> (TurnedDown(log) ==> bounce) && (bounce ==> TurnedDown(log) || host == Bounce))
    }

    /** The connection is closed (queue.c:1649-1655), with QUIT if the error was not one of the connection itself. */
    method Close(r: Result)
      requires r != Ok && Ending(r)
      modifies `connected, `log, `host
      ensures !connected && Linked() && Alike(old(log), log) && host == old(host)
      ensures |log| == |old(log)| + (if r == Error then 2 else 1) && log[|log| - 1] == Closed
      ensures r == Error ==> log[|old(log)|].Smtp? && log[|old(log)|].cmd == Quit
    {
      if r == Error {
        var q, d := ConnectionReply(Quit);
      }
      ConnectionsDoNotMatter(log, Closed);
      NextPhase(log, Closed);
      log := log + [Closed];
      connected := false;
    }

    /** queue.c:1593-1677: the attempt and what its result means for the host. */
    method Send(punt: bool) returns (done: bool, moved: bool, ghost fault: bool)
      requires Looping(punt) && search.result.Some?
      modifies this, search`movement
      ensures SameAddresses(old(rcpts), rcpts) && |log| > |old(log)|
      ensures if done then Ended(punt) else Looping(punt) && !connected
      ensures search.movement == (old(search.movement) || moved) && (!done && moved ==> punt)
      ensures done && !fault ==> host !in {Down, PuntDown}
    {
      var r;
      r, moved := Attempt();
      if moved {
        search.movement := true;
      }
      done, fault := Finish(punt, r, moved);
    }

    method Finish(punt: bool, r: Result, moved: bool) returns (done: bool, ghost fault: bool)
      requires connected && Ending(r) && search.Ready(punt) && search.result.Some? && Counted()
      requires if punt then host == PuntDown && TakenIfDelivered() && (r == Ok ==> Answered() && failed <= 1)
               else host in {Down, Bounce} && Settled() && Answered() && (bounce <==> TurnedDown(log))
                    && (moved <==> failed > 0 || (delivered && accepted > 0)) && (delivered ==> !bounce)
                    && (delivered && r != Ok ==> moved) && (host == Bounce ==> !moved && r != Ok)
      modifies `host, `connected, `log, `rcpts, `bounce, `tempfail
      ensures SameAddresses(old(rcpts), rcpts) && |log| >= |old(log)|
      ensures if done then Ended(punt) else Looping(punt) && !connected
      ensures (!done && moved ==> punt) && (done && !fault ==> host !in {Down, PuntDown})
    {
      if r == Ok {
        Succeed(punt);
        done, fault := true, false;
      } else {
        done, fault := GiveUp(punt, r, moved);
      }
    }

    /** queue.c:1629-1646: the connection stays open for the next message. */
    method Succeed(punt: bool)
      requires connected && Linked() && search.Ready(punt) && search.result.Some? && Counted()
      requires if punt then host == PuntDown && Answered() && failed <= 1 && TakenIfDelivered()
               else host == Down && Attempted() && (bounce <==> TurnedDown(log))
      modifies `host, `rcpts, `bounce, `tempfail
      ensures Ended(punt) && host in {Mx, Punt} && SameAddresses(old(rcpts), rcpts)
    {
      if punt {
        assert |rcpts| == 1 ==> Count(rcpts[1..], Failed) == 0 && rcpts[0].status == Verdict(log, 0);
        ClearErrors();
        assert Everyone(|rcpts|) == Everyone(|old(rcpts)|);
      }
      host := if punt then Punt else Mx;
    }

    /** queue.c:1648-1677: after an error the connection is closed; a message that has moved is not tried again. */
    method GiveUp(punt: bool, r: Result, moved: bool) returns (done: bool, ghost fault: bool)
      requires connected && r != Ok && Ending(r) && search.Ready(punt) && search.result.Some? && Counted()
      requires if punt then host == PuntDown && TakenIfDelivered()
               else host in {Down, Bounce} && Settled() && Answered() && (bounce <==> TurnedDown(log))
                    && (moved <==> failed > 0 || (delivered && accepted > 0)) && (delivered ==> !bounce && moved)
                    && (host == Bounce ==> !moved)
      modifies `host, `connected, `log
      ensures if done then Ended(punt) else Looping(punt) && !connected
      ensures (!done && moved ==> punt) && (done && !fault ==> host !in {Down, PuntDown}) && |log| > |old(log)|
    {
      fault := false;
      Close(r);
      assert Acknowledged(log, |rcpts|) == Acknowledged(old(log), |rcpts|);
      if host == Bounce { return true, fault; }
      if host == Down && moved {
        host := Mx;
        return true, fault;
      }
      var rewound: bool := *;
      return !rewound, !rewound;
    }

    /** queue.c:1558-1587: a connection is opened unless there is one; without an address left, that is the end. */
    method Open(punt: bool) returns (done: bool, open: bool)
      requires Looping(punt) && !connected
      modifies `host, `bounce, search
      ensures if done then Ended(punt) else Looping(punt) && search.result.Some?
      ensures done <==> search.result.None?
      ensures !done ==> !search.movement && search.Sourced(punt)
      ensures !done && !old(search.Retries()) ==> HS.Less(search.Ranking(), old(search.Ranking()))
    {
      var found, nohost := search.Lookup(punt);
      if nohost {
        host, bounce := Bounce, true;
      }
      open := *;
      return !found, open;
    }

    /** One round of deliver_remote's loop (queue.c:1557-1678).  When it does not end, the connection is closed, and
      * less is left to try, unless a host has moved mail that is then retried.
      */
    method Round(punt: bool) returns (done: bool, moved: bool, ghost fault: bool)
      requires Looping(punt)
      modifies this, search
      ensures SameAddresses(old(rcpts), rcpts) && |log| >= |old(log)|
      ensures if done then Ended(punt) else Looping(punt) && !connected && (moved ==> punt && search.movement)
      ensures done && !fault ==> search.result.None? || (host !in {Down, PuntDown} && |log| > |old(log)|)
      ensures !done && !old(connected) ==> search.movement == moved
      ensures !done && !old(connected) && !old(search.Retries()) ==> HS.Less(search.Ranking(), old(search.Ranking()))
    {
      moved, fault := false, false;
      if !connected {
        var open;
        done, open := Open(punt);
        if done || !open { return; }
      }
      done, moved, fault := Send(punt);
    }

    /** deliver_remote (queue.c:1527-1679).  Every address is tried until a message moves or no address is left.
      * The attempts need no bound, except where the code has none: a punt host is retried with aggressive delivery
      * as long as it moves mail and fails.  `patience` bounds these retries, and `more` says that it has run out.
      * `fault`: the clock or the file position could not be read or set.
      */
    method DeliverRemote(patience: nat) returns (more: bool, ghost fault: bool)
      requires host in {Mx, Punt} && Fresh() && Idle()
      modifies this, search
      ensures old(host) == Mx ==> host in {Mx, Down, Bounce} && Attempted()
      ensures old(host) == Mx ==> (TurnedDown(log) ==> bounce) && (bounce ==> TurnedDown(log) || host == Bounce)
      ensures old(host) == Punt ==> host == PuntDown || (host == Punt && Punted())
      ensures !fault && !more ==> search.result.None? || (host !in {Down, PuntDown} && |log| > |old(log)|)
      ensures SameAddresses(old(rcpts), rcpts) && Linked()
      ensures search.Ready(old(host) == Punt) && (host in {Mx, Punt} && search.result.None? ==> !connected)
      ensures more ==> old(host) == Punt && search.Retries()
    {
      UntriedCounts(rcpts);
      var clock: bool := *;
      if !clock { return false, true; }
      var punt := host == Punt;
      host := if punt then PuntDown else Down;
      var left := patience;
      while true
        invariant Looping(punt) && SameAddresses(old(rcpts), rcpts) && |log| >= |old(log)|
        decreases left, connected, search.Retries(), search.Ranking().undecided, search.Ranking().records,
          search.Ranking().addresses, search.Ranking().retries, search.Ranking().unstarted
      {
        var done, moved;
        done, moved, fault := Round(punt);
        if done { return false, fault; }
        if search.aggressive && moved {
          if left == 0 { return true, fault; }
          left := left - 1;
        }
      }
    }

    /** queue.c:1107-1116: the next message of the queue; the connection and the search for a host go on. */
    method NextMessage(rs: seq<Rcpt>)
      requires Untried(rs)
      modifies `rcpts, `accepted, `failed, `tempfailed, `delivered, `bounce, `tempfail, `log
      ensures Fresh() && rcpts == rs && PhaseOf(log) == old(PhaseOf(log)) && log == old(log) + [NewMessage]
    {
      rcpts, accepted, failed, tempfailed, delivered, bounce, tempfail := rs, 0, 0, 0, false, false, false;
      NextBegins(log);
      NextPhase(log, NewMessage);
      log := log + [NewMessage];
      UntriedCounts(rs);
    }

    ghost predicate Idle()
      reads this, search
    {
      search.Ready(host == Punt) && Linked() && (search.result.None? ==> !connected)
    }

    /** Nothing has been done for this message. */
    twostate predicate Untouched()
      reads this
    {
      rcpts == old(rcpts) && log == old(log) && host == old(host) && !delivered && !tempfail && accepted == failed == 0
    }

    /** queue.c:1134-1203: the attempt that the status of the host calls for.  A prisoner stays where it is. */
    method Dispatch(prisoner: bool, patience: nat) returns (ghost fault: bool)
      requires host !in {PuntDown, Unknown} && Fresh() && (host in {Mx, Punt} ==> Idle())
      modifies this, search
      ensures SameAddresses(old(rcpts), rcpts)
      ensures old(host) != Punt && old(host) != Bitbucket ==> Attempted()
      ensures old(host) == Bitbucket ==> delivered && !bounce && failed == 0 && accepted == |rcpts| && log == old(log)
      ensures old(host) == Bounce ==> Untouched() && bounce
      ensures old(host) in {Down, Supressed} || (prisoner && old(host) in {Local, Mx, Punt}) ==> Untouched() && !bounce
      ensures old(host) == Local && !prisoner ==> delivered && !bounce && |log| == |old(log)| + |rcpts|
      ensures old(host) == Mx && !prisoner ==>
          (TurnedDown(log) ==> bounce) && (bounce ==> TurnedDown(log) || host == Bounce)
      ensures old(host) == Mx && !prisoner && !fault ==>
          search.result.None? || (host in {Mx, Bounce} && |log| > |old(log)|)
      ensures old(host) == Punt ==> host == PuntDown || Punted()
      ensures Leaves(old(host), prisoner, host)
      ensures rcpts != [] ==> forall tooOld :: Allows(old(host), prisoner, tooOld, Judge(tooOld))
      ensures host in {Mx, Punt} ==> Idle()
    {
      fault := false;
      UntriedCounts(rcpts);
      match host {
        case Local =>
          if prisoner { return; }
          DeliverLocal();
        case Mx =>
          if prisoner { return; }
          var more;
          more, fault := DeliverRemote(patience);
        case Punt =>
          if prisoner { return; }
          var more;
          more, fault := DeliverRemote(patience);
        case Bounce =>
          bounce := true;
        case Bitbucket =>
          delivered, accepted := true, |rcpts|;
        case _ =>
      }
    }

    /** queue.c:1311-1344 */
    method RewriteList() returns (kept: seq<Rcpt>, n: int)
      ensures kept == Remaining(rcpts, delivered) && n == |kept|
    {
      kept, n := [], |rcpts|;
      for i := 0 to |rcpts|
        invariant kept + Remaining(rcpts[i..], delivered) == Remaining(rcpts, delivered)
        invariant n == |kept| + |rcpts| - i
      {
        RemainingNext(kept, rcpts, i, delivered);
        if Done(rcpts[i], delivered) {
          n := n - 1;
        } else {
          kept := kept + [rcpts[i]];
        }
      }
    }

    /** queue.c:1210-1226: how many recipients this attempt has settled. */
    function Settling(): nat
      reads `rcpts, `accepted, `failed, `delivered, `bounce
    {
      if delivered then failed + accepted else if bounce then |rcpts| else failed
    }

    /** queue.c:1228-1362 */
    function Judge(tooOld: bool): Judgement
      reads `rcpts, `accepted, `failed, `delivered, `bounce
    {
      var all := Settling() == |rcpts|;
      var bounces := bounce || (tooOld && !all);
      Judgement(bounces || failed > 0, bounces || all, !bounces && !all && Settling() != 0)
    }

    /** The counters know exactly when every recipient is done. */
    lemma SettlingIsDone()
      requires Counted() && !bounce
      ensures Settling() == |rcpts| - |Remaining(rcpts, delivered)|
      ensures Settling() == |rcpts| <==> forall r :: r in rcpts ==> Done(r, delivered)
    {
      RemainingCount(rcpts, delivered);
      if Settling() == |rcpts| {
        forall r | r in rcpts
          ensures Done(r, delivered)
        {
          assert r !in Remaining(rcpts, delivered);
        }
      } else {
        assert Remaining(rcpts, delivered)[0] in Remaining(rcpts, delivered);
      }
    }
  }

  lemma {:induction false} NoneAccepted(rs: seq<Rcpt>)
    requires Count(rs, Accepted) == 0
    ensures With(rs, Accepted) == {}
  {
    if rs != [] {
      NoneAccepted(rs[1..]);
      forall i: nat | i < |rs|
        ensures rs[i].status != Accepted
      {
        assert i > 0 ==> rs[i] == rs[1..][i - 1] && i - 1 !in With(rs[1..], Accepted);
      }
    }
  }
}
