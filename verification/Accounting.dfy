/** What becomes of a message after an attempt: bounce, rewrite or delete (`_q_deliver`, queue.c:1088-1425). */
module Accounting {
  import opened Recipients
  import opened Dialogue
  import opened Delivery

  /** `gone`: the message was deleted.  Otherwise `efile` are the recipients that its Efile names and `memory` those of
    * the envelope in memory; `punts` says that it is queued for the punt host as it is in memory, and not freed.
    * `bounced` are the addresses that a bounce in the spool names.  `unwritten`: the Efile could not be rewritten.
    */
  datatype Outcome = Outcome(gone: bool, efile: seq<Rcpt>, memory: seq<Rcpt>, bounced: seq<string>, punts: bool,
      unwritten: bool)

  /** The recipients of the next attempt: queue.c:1094 reads an envelope only if it is not in memory. */
  function Next(o: Outcome): seq<Rcpt> {
    if o.gone then [] else if o.punts then o.memory else o.efile
  }

  /** bounce.c:470-484: all recipients of a bad message, or the bad recipients. */
  function Named(rs: seq<Rcpt>, bounce: bool): seq<string> {
    if rs == [] then []
    else (if bounce || rs[0].status == Failed then [rs[0].addr] else []) + Named(rs[1..], bounce)
  }

  /** A recipient that a bounce has to name: a refused one, or any if the message as a whole is bounced. */
  ghost predicate ToName(r: Rcpt, bounce: bool) {
    bounce || r.status == Failed
  }

  /** A bounce names these recipients and no others, each as often as it is one. */
  lemma {:induction false} NamedIs(rs: seq<Rcpt>, bounce: bool)
    ensures forall i :: 0 <= i < |rs| && ToName(rs[i], bounce) ==> rs[i].addr in Named(rs, bounce)
    ensures forall a :: a in Named(rs, bounce) ==> exists i :: 0 <= i < |rs| && ToName(rs[i], bounce) && rs[i].addr == a
    ensures |Named(rs, bounce)| == if bounce then |rs| else Count(rs, Failed)
  {
    if rs != [] {
      NamedIs(rs[1..], bounce);
      forall i | 0 <= i < |rs| && ToName(rs[i], bounce)
        ensures rs[i].addr in Named(rs, bounce)
      {
        assert i > 0 ==> rs[i] == rs[1..][i - 1];
      }
      forall a | a in Named(rs, bounce)
        ensures exists i :: 0 <= i < |rs| && ToName(rs[i], bounce) && rs[i].addr == a
      {
        if a in Named(rs[1..], bounce) {
          var i :| 0 <= i < |rs[1..]| && ToName(rs[1..][i], bounce) && rs[1..][i].addr == a;
          assert rs[i + 1] == rs[1..][i];
        } else {
          assert ToName(rs[0], bounce) && rs[0].addr == a;
        }
      }
    }
  }

  lemma {:induction false} NothingNamed(rs: seq<Rcpt>)
    requires Count(rs, Failed) == 0
    ensures Named(rs, false) == []
  {
    if rs != [] {
      NothingNamed(rs[1..]);
    }
  }

  ghost predicate Listed(addr: string, rs: seq<Rcpt>) {
    exists k :: 0 <= k < |rs| && rs[k].addr == addr
  }

  /** Recipient `i` was accepted in an acknowledged transaction, is named in a bounce, or is still to be tried. */
  ghost predicate Safe(r: Rcpt, i: nat, handed: set<nat>, o: Outcome) {
    i in handed || r.addr in o.bounced || Listed(r.addr, Next(o))
  }

  ghost predicate NoneLost(rs: seq<Rcpt>, handed: set<nat>, o: Outcome) {
    forall i :: 0 <= i < |rs| ==> Safe(rs[i], i, handed, o)
  }

  /** The rewrite failed after the recipients had been removed in memory, the queue punts, and one of the recipients was
    * refused; no bounce names that one, and no other recipient has the same address.
    */
  ghost predicate Loses(rs: seq<Rcpt>, o: Outcome) {
    o.unwritten && o.punts &&
    exists i :: 0 <= i < |rs| && rs[i].status == Failed && rs[i].addr !in o.bounced && !Listed(rs[i].addr, o.memory)
  }

  lemma KeptIsSafe(rs: seq<Rcpt>, handed: set<nat>, bounced: seq<string>, punts: bool)
    ensures NoneLost(rs, handed, Outcome(false, rs, rs, bounced, punts, false))
  {}

  /** Everyone but the settled recipients is on the list that a rewrite leaves. */
  lemma RemainingIsListed(rs: seq<Rcpt>, delivered: bool, i: nat)
    requires i < |rs| && !Done(rs[i], delivered)
    ensures Listed(rs[i].addr, Remaining(rs, delivered))
  {
    RemainingCount(rs, delivered);
    assert rs[i] in rs;
    var k :| 0 <= k < |Remaining(rs, delivered)| && Remaining(rs, delivered)[k] == rs[i];
  }

  lemma RewrittenIsSafe(rs: seq<Rcpt>, delivered: bool, handed: set<nat>, punts: bool)
    requires handed == if delivered then With(rs, Accepted) else {}
    ensures var kept := Remaining(rs, delivered);
        NoneLost(rs, handed, Outcome(false, kept, kept, Named(rs, false), punts, false))
  {
    NamedIs(rs, false);
    forall i | 0 <= i < |rs|
      ensures rs[i].addr in Named(rs, false) || i in handed || Listed(rs[i].addr, Remaining(rs, delivered))
    {
      assert ToName(rs[i], false) ==> rs[i].addr in Named(rs, false);
      if !Done(rs[i], delivered) {
        RemainingIsListed(rs, delivered, i);
      }
    }
  }

  lemma DeletedIsSafe(rs: seq<Rcpt>, delivered: bool, handed: set<nat>, bounce: bool, punts: bool)
    requires handed == if delivered then With(rs, Accepted) else {}
    requires bounce || forall r :: r in rs ==> Done(r, delivered)
    ensures NoneLost(rs, handed, Outcome(true, [], [], Named(rs, bounce), punts, false))
  {
    NamedIs(rs, bounce);
    assert forall i :: 0 <= i < |rs| ==> rs[i] in rs && (ToName(rs[i], bounce) ==> rs[i].addr in Named(rs, bounce));
  }

  /** A rewrite that fails: the Efile still names everyone, the envelope in memory does not.  Somebody is lost if
    * and only if it is the list in memory that counts and a refused recipient is on no other list.
    */
  lemma UnwrittenLosesIff(rs: seq<Rcpt>, delivered: bool, handed: set<nat>, bounced: seq<string>, punts: bool)
    requires handed == if delivered then With(rs, Accepted) else {}
    ensures var o := Outcome(false, rs, Remaining(rs, delivered), bounced, punts, true);
            NoneLost(rs, handed, o) <==> !Loses(rs, o)
  {
    var o := Outcome(false, rs, Remaining(rs, delivered), bounced, punts, true);
    if punts {
      forall i | 0 <= i < |rs| && !Safe(rs[i], i, handed, o)
        ensures Loses(rs, o)
      {
        if !Done(rs[i], delivered) {
          RemainingIsListed(rs, delivered, i);
        }
      }
      if Loses(rs, o) {
        var i :| 0 <= i < |rs| && rs[i].status == Failed && rs[i].addr !in o.bounced && !Listed(rs[i].addr, o.memory);
        assert !Safe(rs[i], i, handed, o);
      }
    } else {
      assert forall i :: 0 <= i < |rs| ==> Listed(rs[i].addr, rs);
    }
  }

  /** The first of two recipients is refused, the second is to be tried again, and the rewrite fails: the punt host is
    * asked to take the message for the second only.  When it does, the message is deleted, and nothing names the first.
    */
  lemma FailedRewriteLoses()
    ensures var rs := [Rcpt("a", Failed), Rcpt("b", Tempfail)];
            var o := Outcome(false, rs, Remaining(rs, false), [], true, true);
            && Loses(rs, o) && !NoneLost(rs, {}, o) && Next(o) == [Rcpt("b", Tempfail)]
            && Intended([Rcpt("b", Accepted)], true, false, 1, false) == Outcome(true, [], [], [], false, false)
  {}

  /** What the code aims at once the attempt is over and the age of the message is known. */
  function Intended(rs: seq<Rcpt>, delivered: bool, bounce: bool, settling: nat, punts: bool): Outcome {
    if bounce || settling == |rs| then Outcome(true, [], [], Named(rs, bounce), punts, false)
    else
      var kept := Remaining(rs, delivered);
      Outcome(false, kept, kept, Named(rs, false), punts, false)
  }

  lemma {:induction false} NothingRemoved(rs: seq<Rcpt>, delivered: bool)
    requires |Remaining(rs, delivered)| == |rs|
    ensures Remaining(rs, delivered) == rs
  {
    if rs != [] {
      RemainingCount(rs[1..], delivered);
      NothingRemoved(rs[1..], delivered);
    }
  }

  lemma IntendedIsSafe(d: Deliver, bounce: bool, punts: bool)
    requires d.Attempted() && (d.bounce ==> bounce)
    ensures NoneLost(d.rcpts, d.Handed(), Intended(d.rcpts, d.delivered, bounce, d.Settling(), punts))
    ensures !bounce && d.Settling() != |d.rcpts| ==> |Remaining(d.rcpts, d.delivered)| == |d.rcpts| - d.Settling() > 0
  {
    if !bounce {
      d.SettlingIsDone();
    }
    if bounce || d.Settling() == |d.rcpts| {
      DeletedIsSafe(d.rcpts, d.delivered, d.Handed(), bounce, punts);
    }
    RewrittenIsSafe(d.rcpts, d.delivered, d.Handed(), punts);
  }

  /** What becomes of a message when no call fails.  It is deleted if and only if it is bounced or nobody is left; a
    * bounce names the refused recipients, or everyone; and only those who are left are tried again.
    */
  ghost predicate SettledAs(rs: seq<Rcpt>, delivered: bool, bounce: bool, o: Outcome) {
    && (o.gone <==> bounce || forall r :: r in rs ==> r.status == Failed || (delivered && r.status == Accepted))
    && (forall a :: a in o.bounced <==> exists i :: 0 <= i < |rs| && ToName(rs[i], bounce) && rs[i].addr == a)
    && o.efile == o.memory && (o.gone ==> o.efile == []) && !o.unwritten
    && (!o.gone ==> forall r :: r in o.efile <==> r in rs && r.status != Failed && !(delivered && r.status == Accepted))
  }

  lemma IntendedSettles(d: Deliver, bounce: bool, punts: bool)
    requires d.Attempted() && (d.bounce ==> bounce)
    ensures SettledAs(d.rcpts, d.delivered, bounce, Intended(d.rcpts, d.delivered, bounce, d.Settling(), punts))
  {
    NamedIs(d.rcpts, bounce);
    NamedIs(d.rcpts, false);
    RemainingCount(d.rcpts, d.delivered);
    if !bounce {
      d.SettlingIsDone();
    }
  }

  /** What a failure leaves: everyone is still to be tried, unless it is the rewrite that failed. */
  ghost predicate Fallback(d: Deliver, o: Outcome)
    reads d`rcpts, d`delivered
  {
    !o.gone && o.efile == d.rcpts && o.memory == if o.unwritten then Remaining(d.rcpts, d.delivered) else d.rcpts
  }

  /** queue.c:1391-1420: a bounce that was created is withdrawn, if that is possible. */
  method Withdraw(d: Deliver, named: seq<string>, punts: bool, unwritten: bool) returns (o: Outcome)
    ensures Fallback(d, o) && o.punts == punts && o.unwritten == unwritten && o.bounced in {[], named}
  {
    var withdrawn: bool := *;
    var bounced := if withdrawn then [] else named;
    var memory := if unwritten then Remaining(d.rcpts, d.delivered) else d.rcpts;
    o := Outcome(false, d.rcpts, memory, bounced, punts, unwritten);
  }

  lemma FallbackLosesIff(d: Deliver, o: Outcome)
    requires d.Settled() && Fallback(d, o)
    ensures NoneLost(d.rcpts, d.Handed(), o) <==> !Loses(d.rcpts, o)
  {
    if o.unwritten {
      UnwrittenLosesIff(d.rcpts, d.delivered, d.Handed(), o.bounced, o.punts);
    } else {
      KeptIsSafe(d.rcpts, d.Handed(), o.bounced, o.punts);
    }
  }

  /** What has been done with the message. */
  ghost function Handled(rs: seq<Rcpt>, o: Outcome): Judgement {
    Judgement(o.bounced != [], o.gone, !o.gone && |o.efile| < |rs|)
  }

  lemma IntendedIsJudged(d: Deliver, tooOld: bool, punts: bool)
    requires d.Attempted() && d.rcpts != []
    ensures var bounce := d.bounce || (tooOld && d.Settling() != |d.rcpts|);
        Handled(d.rcpts, Intended(d.rcpts, d.delivered, bounce, d.Settling(), punts)) == d.Judge(tooOld)
  {
    var bounce := d.bounce || (tooOld && d.Settling() != |d.rcpts|);
    NamedIs(d.rcpts, bounce);
    if !bounce {
      d.SettlingIsDone();
    }
  }

  lemma {:induction false} UntriedRemain(rs: seq<Rcpt>, delivered: bool)
    requires Untried(rs)
    ensures Remaining(rs, delivered) == rs && Count(rs, Failed) == 0
  {
    if rs != [] {
      UntriedRemain(rs[1..], delivered);
    }
  }

  /** What is left after an attempt that settles neither nobody nor everyone. */
  lemma SomebodyRemains(d: Deliver)
    requires d.rcpts != [] && !d.bounce && d.Settling() != |d.rcpts| && (d.Attempted() || d.Punted())
    ensures Remaining(d.rcpts, d.delivered) != []
    ensures d.Settling() == 0 ==> Remaining(d.rcpts, d.delivered) == d.rcpts
  {
    if d.Attempted() {
      d.SettlingIsDone();
      if d.Settling() == 0 {
        NothingRemoved(d.rcpts, d.delivered);
      }
    } else {
      UntriedRemain(d.rcpts, d.delivered);
    }
  }

  /** queue.c:1235-1377 after the attempt; `tooOld` says that the message is older than the limit, `punts` that there is
    * a punt queue, this is another one, and it may punt.  Creating the bounce, deleting the message and rewriting its
    * Efile can each fail.
    */
  method Conclude(d: Deliver, tooOld: bool, punts: bool) returns (o: Outcome, fault: bool)
    requires d.rcpts != [] && (d.Attempted() || d.Punted())
    modifies d`bounce
    ensures d.bounce == (old(d.bounce) || (tooOld && old(d.Settling()) != |d.rcpts|))
    ensures if fault then Fallback(d, o) && o.punts == punts && (o.unwritten ==> !d.bounce)
            else o == Intended(d.rcpts, d.delivered, d.bounce, old(d.Settling()), punts)
    ensures !o.gone ==> |Next(o)| > 0
  {
    var remove := d.Settling();
    ghost var undone := !d.bounce && remove != |d.rcpts| && !tooOld;
    if undone {
      SomebodyRemains(d);
    }
    if remove != |d.rcpts| && tooOld {
      d.bounce := true;
    }
    var named := [];
    if d.bounce || d.failed > 0 {
      var created: bool := *;
      if !created {
        o := Withdraw(d, [], punts, false);
        return o, true;
      }
      named := Named(d.rcpts, d.bounce);
    } else {
      NothingFailed(d);
    }
    if d.bounce || remove == |d.rcpts| {
      var deleted: bool := *;
      if !deleted {
        o := Withdraw(d, named, punts, false);
        return o, true;
      }
      return Outcome(true, [], [], named, punts, false), false;
    }
    if remove != 0 {
      var kept, n := d.RewriteList();
      assert n > 0;
      var rewritten: bool := *;
      if !rewritten {
        o := Withdraw(d, named, punts, true);
        return o, true;
      }
      return Outcome(false, kept, kept, named, punts, false), false;
    }
    return Outcome(false, d.rcpts, d.rcpts, named, punts, false), false;
  }

  lemma NothingFailed(d: Deliver)
    requires d.failed == 0 && (d.Counted() || Untried(d.rcpts))
    ensures Named(d.rcpts, false) == []
  {
    if Untried(d.rcpts) {
      UntriedRemain(d.rcpts, false);
    }
    NothingNamed(d.rcpts);
  }

  /** The same for a queue that is not the punt queue: what becomes of the recipients. */
  method Settle(d: Deliver, tooOld: bool, punts: bool) returns (o: Outcome, fault: bool)
    requires d.Attempted() && d.rcpts != []
    modifies d`bounce
    ensures d.bounce == (old(d.bounce) || (tooOld && old(d.Settling()) != |d.rcpts|))
    ensures if fault then Fallback(d, o) && o.punts == punts && (o.unwritten ==> !d.bounce)
            else SettledAs(d.rcpts, d.delivered, d.bounce, o) && o.punts == punts
    ensures !fault ==> Handled(d.rcpts, o) == old(d.Judge(tooOld))
    ensures NoneLost(d.rcpts, d.Handed(), o) <==> !Loses(d.rcpts, o)
    ensures !o.gone ==> |Next(o)| > 0
  {
    ghost var bounce := d.bounce || (tooOld && d.Settling() != |d.rcpts|);
    IntendedIsSafe(d, bounce, punts);
    IntendedSettles(d, bounce, punts);
    IntendedIsJudged(d, tooOld, punts);
    o, fault := Conclude(d, tooOld, punts);
    if fault {
      FallbackLosesIff(d, o);
    }
  }

  // ---------- The punt queue ----------

  /** The punt host has refused the only recipient of the message for good. */
  ghost predicate Dropped(d: Deliver)
    reads d`rcpts, d`delivered, d`log
  {
    |d.rcpts| == 1 && Verdict(d.log, 0) == Failed && !d.delivered
  }

  /** The statuses are cleared when the punt host has answered, the counters are not (queue.c:1637-1639).  So a message
    * whose only recipient is refused counts as settled and is deleted, and the bounce does not name that recipient.
    */
  method SettlePunted(d: Deliver, tooOld: bool) returns (o: Outcome, fault: bool)
    requires d.Punted() && d.rcpts != []
    modifies d`bounce
    ensures NoneLost(d.rcpts, d.Handed(), o) <==> fault || !Dropped(d)
    ensures !fault && Dropped(d) ==> o.gone && o.bounced == []
    ensures !o.gone ==> Next(o) == d.rcpts
  {
    UntriedRemain(d.rcpts, d.delivered);
    ghost var remove := d.Settling();
    o, fault := Conclude(d, tooOld, false);
    NamedIs(d.rcpts, d.bounce);
    if fault {
      KeptIsSafe(d.rcpts, d.Handed(), o.bounced, false);
    } else if !o.gone {
      KeptIsSafe(d.rcpts, d.Handed(), o.bounced, false);
    } else if Dropped(d) {
      assert !Safe(d.rcpts[0], 0, d.Handed(), o);
    }
  }

  /** A conversation with the punt host for which that happens. */
  lemma PuntHostRefuses()
    ensures var rs := [Rcpt("a", Tempfail)];
            var log := [NewMessage, Smtp(MailFrom, Two), Smtp(RcptTo(0), Five)];
            var o := Intended(rs, false, false, 1, false);
            && Verdict(log, 0) == Failed && Acknowledged(log, 1) == {}
            && o == Outcome(true, [], [], [], false, false) && !NoneLost(rs, Acknowledged(log, 1), o)
  {
    var rs := [Rcpt("a", Tempfail)];
    var log := [NewMessage, Smtp(MailFrom, Two), Smtp(RcptTo(0), Five)];
    RcptAnswered(log[..2], 0, Five);
    MailBegins(log[..1], Two);
    assert log[..2] + [Smtp(RcptTo(0), Five)] == log && log[..1] + [Smtp(MailFrom, Two)] == log[..2];
    assert !Safe(rs[0], 0, {}, Intended(rs, false, false, 1, false));
  }

  /** One message of the punt queue (queue.c:1088-1425).  If the host is down, it is queued again. */
  method PuntMessage(d: Deliver, rs: seq<Rcpt>, prisoner: bool, tooOld: bool, patience: nat)
    returns (o: Outcome, fault: bool)
    requires Untried(rs) && rs != [] && d.host == Punt && d.Idle()
    modifies d, d.search
    ensures SameAddresses(rs, d.rcpts) && d.host in {Punt, PuntDown}
    ensures NoneLost(rs, d.Handed(), o) <==> fault || d.host == PuntDown || !Dropped(d)
    ensures !o.gone ==> SameAddresses(rs, Next(o))
  {
    d.NextMessage(rs);
    var readable: bool := *;
    if !readable {
      KeptIsSafe(rs, d.Handed(), [], false);
      return Outcome(false, rs, rs, [], false, false), true;
    }
    ghost var f := d.Dispatch(prisoner, patience);
    if d.host == PuntDown {
      KeptIsSafe(rs, d.Handed(), [], true);
      return Outcome(false, rs, rs, [], true, false), false;
    }
    o, fault := SettlePunted(d, tooOld);
    SafeUnderOtherStatuses(d.rcpts, rs, d.Handed(), o);
  }

  // ---------- The other queues ----------

  /** One message of a queue that is not the punt queue (queue.c:1088-1425).  Its Dfile may be impossible to open. */
  method ProcessMessage(d: Deliver, rs: seq<Rcpt>, prisoner: bool, tooOld: bool) returns (o: Outcome, fault: bool)
    requires Untried(rs) && rs != [] && d.host in {Mx, Down, Bounce, Local, Supressed}
    requires d.host == Mx ==> d.Idle()
    modifies d, d.search
    ensures SameAddresses(rs, d.rcpts) && d.Answered()
    ensures NoneLost(rs, d.Handed(), o) <==> !Loses(d.rcpts, o)
    ensures !fault ==> SettledAs(d.rcpts, d.delivered, d.bounce, o)
    ensures !fault ==> Allows(old(d.host), prisoner, tooOld, Handled(rs, o))
    ensures !fault && old(d.host) == Bounce ==> d.bounce && o.gone
    ensures !fault && (old(d.host) in {Down, Supressed} || (prisoner && old(d.host) in {Local, Mx})) ==>
        d.rcpts == rs && !d.delivered && d.bounce == tooOld
    ensures !fault && d.bounce ==> TurnedDown(d.log) || d.host == Bounce || tooOld
    ensures !o.gone ==> |Next(o)| > 0
    ensures old(d.host) == Mx ==> d.host in {Mx, Down, Bounce}
    ensures old(d.host) != Mx ==> d.host == old(d.host)
    ensures d.host == Mx ==> d.Idle()
  {
    d.NextMessage(rs);
    var punts: bool := *; // the search for a host decides whether this queue may punt (hq_no_punt)
    var readable: bool := *;
    if readable {
      o, fault := TryAndSettle(d, prisoner, tooOld, punts);
      SafeUnderOtherStatuses(d.rcpts, rs, d.Handed(), o);
    } else {
      KeptIsSafe(rs, d.Handed(), [], punts);
      o, fault := Outcome(false, rs, rs, [], punts, false), true;
    }
  }

  method TryAndSettle(d: Deliver, prisoner: bool, tooOld: bool, punts: bool) returns (o: Outcome, fault: bool)
    requires d.Fresh() && d.rcpts != [] && d.host in {Mx, Down, Bounce, Local, Supressed}
    requires d.host == Mx ==> d.Idle()
    modifies d, d.search
    ensures SameAddresses(old(d.rcpts), d.rcpts) && d.Answered()
    ensures NoneLost(d.rcpts, d.Handed(), o) <==> !Loses(d.rcpts, o)
    ensures !fault ==> SettledAs(d.rcpts, d.delivered, d.bounce, o)
    ensures !fault ==> Allows(old(d.host), prisoner, tooOld, Handled(d.rcpts, o))
    ensures !fault && old(d.host) == Bounce ==> d.bounce && o.gone
    ensures !fault && (old(d.host) in {Down, Supressed} || (prisoner && old(d.host) in {Local, Mx})) ==>
        d.rcpts == old(d.rcpts) && !d.delivered && d.bounce == tooOld
    ensures !fault && d.bounce ==> TurnedDown(d.log) || d.host == Bounce || tooOld
    ensures !o.gone ==> |Next(o)| > 0
    ensures old(d.host) == Mx ==> d.host in {Mx, Down, Bounce}
    ensures old(d.host) != Mx ==> d.host == old(d.host)
    ensures d.host == Mx ==> d.Idle()
  {
    ghost var f := d.Dispatch(prisoner, 0);
    o, fault := Settle(d, tooOld, punts);
  }

  lemma SafeUnderOtherStatuses(rs: seq<Rcpt>, ts: seq<Rcpt>, handed: set<nat>, o: Outcome)
    requires SameAddresses(rs, ts)
    ensures NoneLost(rs, handed, o) <==> NoneLost(ts, handed, o)
  {}

  /** How the attempt for one message went: everything that was said up to its end, the recipients with the replies to
    * them, and what the message as a whole came to.
    */
  datatype Report = Report(log: seq<Said>, rcpts: seq<Rcpt>, delivered: bool, bounce: bool, fault: bool)

  /** The statuses are the last words on the recipients.  Every recipient was accepted in an acknowledged
    * transaction, is named in a bounce, or is still to be tried, if and only if no rewrite failed as `Loses` says.
    */
  ghost predicate Accounted(rs: seq<Rcpt>, r: Report, o: Outcome) {
    && SameAddresses(rs, r.rcpts) && (forall i: nat :: i < |rs| ==> r.rcpts[i].status == Verdict(r.log, i))
    && (NoneLost(rs, Acknowledged(r.log, |rs|), o) <==> !Loses(r.rcpts, o))
    && (!r.fault ==> SettledAs(r.rcpts, r.delivered, r.bounce, o))
    && (!o.gone ==> |Next(o)| > 0)
  }

  /** _q_deliver for a queue that is not the punt queue, whatever the replies are and whatever fails. */
  method QDeliver(d: Deliver, queue: seq<seq<Rcpt>>, prisoners: seq<bool>, tooOld: seq<bool>)
    returns (outcomes: seq<Outcome>, ghost reports: seq<Report>)
    requires |prisoners| == |tooOld| == |queue| && forall k :: 0 <= k < |queue| ==> Untried(queue[k]) && queue[k] != []
    requires d.host in {Mx, Down, Bounce, Local, Supressed} && (d.host == Mx ==> d.Idle())
    modifies d, d.search
    ensures |outcomes| == |reports| == |queue|
    ensures forall k :: 0 <= k < |queue| ==> Accounted(queue[k], reports[k], outcomes[k])
    ensures old(d.host) == Mx ==> d.host in {Mx, Down, Bounce}
    ensures old(d.host) != Mx ==> d.host == old(d.host)
  {
    outcomes, reports := [], [];
    for i := 0 to |queue|
      invariant |outcomes| == |reports| == i
      invariant forall k :: 0 <= k < i ==> Accounted(queue[k], reports[k], outcomes[k])
      invariant old(d.host) == Mx ==> d.host in {Mx, Down, Bounce}
      invariant old(d.host) != Mx ==> d.host == old(d.host)
      invariant d.host == Mx ==> d.Idle()
    {
      var o, fault := ProcessMessage(d, queue[i], prisoners[i], tooOld[i]);
      outcomes, reports := outcomes + [o], reports + [Report(d.log, d.rcpts, d.delivered, d.bounce, fault)];
    }
  }
}
