/** The recipients of a message during a delivery attempt, and how they are counted. */
module Recipients {

  datatype Status = Tempfail | Accepted | Failed

  datatype Rcpt = Rcpt(addr: string, status: Status)

  function Count(rs: seq<Rcpt>, st: Status): nat {
    if rs == [] then 0 else Count(rs[1..], st) + if rs[0].status == st then 1 else 0
  }

  lemma {:induction false} CountAtMost(rs: seq<Rcpt>)
    ensures Count(rs, Accepted) + Count(rs, Failed) + Count(rs, Tempfail) == |rs|
  {
    if rs != [] {
      CountAtMost(rs[1..]);
    }
  }

  /** A recipient without a reply gets one. */
  lemma {:induction false} CountReply(rs: seq<Rcpt>, i: nat, st: Status, what: Status)
    requires i < |rs| && rs[i].status == Tempfail && st != Tempfail && what != Tempfail
    ensures Count(rs[i := rs[i].(status := st)], what) == Count(rs, what) + if st == what then 1 else 0
  {
    var r := rs[i := rs[i].(status := st)];
    if i == 0 {
      assert r[1..] == rs[1..];
    } else {
      assert r[1..] == rs[1..][i - 1 := rs[i].(status := st)];
      CountReply(rs[1..], i - 1, st, what);
    }
  }

  /** env_clear_errors (envelope.c:262-285) on the recipients. */
  function Cleared(rs: seq<Rcpt>): seq<Rcpt> {
    seq(|rs|, i requires 0 <= i < |rs| => rs[i].(status := Tempfail))
  }

  ghost predicate Untried(rs: seq<Rcpt>) {
    forall i :: 0 <= i < |rs| ==> rs[i].status == Tempfail
  }

  lemma {:induction false} UntriedCounts(rs: seq<Rcpt>)
    requires Untried(rs)
    ensures Count(rs, Accepted) == 0 && Count(rs, Failed) == 0
  {
    if rs != [] {
      UntriedCounts(rs[1..]);
    }
  }

  ghost predicate SameAddresses(rs: seq<Rcpt>, ts: seq<Rcpt>) {
    |rs| == |ts| && forall i :: 0 <= i < |rs| ==> rs[i].addr == ts[i].addr
  }

  /** The positions of the recipients with status `st`. */
  ghost function With(rs: seq<Rcpt>, st: Status): set<nat> {
    set i: nat | i < |rs| && rs[i].status == st
  }

  /** Recipients that a rewrite removes (queue.c:1314-1316). */
  predicate Done(r: Rcpt, delivered: bool) {
    (delivered && r.status == Accepted) || r.status == Failed
  }

  function Remaining(rs: seq<Rcpt>, delivered: bool): seq<Rcpt> {
    if rs == [] then []
    else (if Done(rs[0], delivered) then [] else [rs[0]]) + Remaining(rs[1..], delivered)
  }

  lemma RemainingNext(kept: seq<Rcpt>, rs: seq<Rcpt>, i: nat, delivered: bool)
    requires i < |rs|
    ensures kept + Remaining(rs[i..], delivered)
         == (if Done(rs[i], delivered) then kept else kept + [rs[i]]) + Remaining(rs[i + 1..], delivered)
  {}

  lemma {:induction false} RemainingCount(rs: seq<Rcpt>, delivered: bool)
    ensures |Remaining(rs, delivered)| == |rs| - Count(rs, Failed) - if delivered then Count(rs, Accepted) else 0
    ensures forall r :: r in Remaining(rs, delivered) <==> r in rs && !Done(r, delivered)
  {
    if rs != [] {
      RemainingCount(rs[1..], delivered);
      assert rs == [rs[0]] + rs[1..];
    }
  }
}
