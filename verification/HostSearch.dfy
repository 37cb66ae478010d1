/** Choosing the next address to connect to for a host queue (queue.c:1682-2100). */
module HostSearch {
  import opened Options

  /** A record of a DNS answer; `ip` is the address that came along with an MX record. */
  datatype Answer = A(addr: string) | Mx(pref: nat, exchange: string, ip: Option<string>) | Cname | Other

  predicate Fake(addr: string) {
    addr == "127.0.0.1" || addr == "0.0.0.0"
  }

  /** The record gives this address without another lookup: an MX record that came with it, for a host that is not
    * punted to, or an A record, which must not be a fake unless it is that of the punt host.
    */
  ghost predicate Gives(r: Answer, punt: bool, addr: string) {
    match r
    case A(a) => a == addr && (punt || (addr != "127.0.0.1" && addr != "0.0.0.0"))
    case Mx(_, _, ip) => !punt && ip == Some(addr)
    case _ => false
  }

  ghost predicate GivesOne(r: Answer, punt: bool) {
    exists addr :: Gives(r, punt, addr)
  }

  /** An address that was looked up for an MX record and can be used. */
  ghost predicate Usable(r: Answer) {
    r.A? && r.addr != "127.0.0.1" && r.addr != "0.0.0.0"
  }

  /** MX records in the order of their preferences. */
  ghost predicate Ordered(rs: seq<Answer>) {
    forall i, j :: 0 <= i < j < |rs| && rs[i].Mx? && rs[j].Mx? ==> rs[i].pref <= rs[j].pref
  }

  /** No MX record up to `i` has the preference `c`. */
  ghost predicate InFront(rs: seq<Answer>, c: nat, i: int) {
    forall j :: 0 <= j <= i && j < |rs| && rs[j].Mx? ==> rs[j].pref != c
  }

  /** Every MX record in front of the first one at the cutoff is below it. */
  ghost predicate Guarded(rs: seq<Answer>, cutoff: Option<nat>) {
    cutoff.Some? ==> forall i :: 0 <= i < |rs| && rs[i].Mx? && InFront(rs, cutoff.value, i) ==>
        rs[i].pref < cutoff.value
  }

  ghost predicate Below(pref: Option<nat>, cutoff: Option<nat>) {
    pref.Some? && cutoff.Some? ==> pref.value < cutoff.value
  }

  ghost function PrefOf(r: Answer): Option<nat> {
    if r.Mx? then Some(r.pref) else None
  }

  /** The preference of the first record that names this host or its secondary, if any does. */
  function Cutoff(rs: seq<Answer>, ours: string -> bool): Option<nat> {
    if rs == [] then None
    else if rs[0].Mx? && ours(rs[0].exchange) then Some(rs[0].pref)
    else Cutoff(rs[1..], ours)
  }

  /** The position of the record that sets the cutoff. */
  lemma {:induction false} CutoffRecord(rs: seq<Answer>, ours: string -> bool) returns (k: nat)
    requires Cutoff(rs, ours).Some?
    ensures k < |rs| && rs[k].Mx? && ours(rs[k].exchange) && Some(rs[k].pref) == Cutoff(rs, ours)
    ensures forall j :: 0 <= j < k && rs[j].Mx? ==> !ours(rs[j].exchange)
  {
    if rs[0].Mx? && ours(rs[0].exchange) {
      k := 0;
    } else {
      k := CutoffRecord(rs[1..], ours);
      k := k + 1;
    }
  }

  lemma {:induction false} NoCutoff(rs: seq<Answer>, ours: string -> bool)
    requires Cutoff(rs, ours).None?
    ensures forall j :: 0 <= j < |rs| && rs[j].Mx? ==> !ours(rs[j].exchange)
  {
    if rs != [] {
      NoCutoff(rs[1..], ours);
      assert forall j :: 0 < j < |rs| ==> rs[j] == rs[1..][j - 1];
    }
  }

  /** The order of the preferences is enough. */
  lemma OrderedIsGuarded(rs: seq<Answer>, ours: string -> bool)
    requires Ordered(rs)
    ensures Guarded(rs, Cutoff(rs, ours))
  {
    var cutoff := Cutoff(rs, ours);
    if cutoff.Some? {
      var k := CutoffRecord(rs, ours);
      forall i | 0 <= i < |rs| && rs[i].Mx? && InFront(rs, cutoff.value, i)
        ensures rs[i].pref < cutoff.value
      {
        assert i < k;
      }
    }
  }

  /** What is left to try, in the order in which it is used up. */
  datatype Rank = Rank(undecided: nat, records: nat, addresses: nat, retries: nat, unstarted: nat)

  ghost predicate Less(a: Rank, b: Rank) {
    || a.undecided < b.undecided
    || (a.undecided == b.undecided
        && (|| a.records < b.records
            || (a.records == b.records
                && (|| a.addresses < b.addresses
                    || (a.addresses == b.addresses
                        && (a.retries < b.retries || (a.retries == b.retries && a.unstarted < b.unstarted)))))))
  }

  ghost predicate AtMost(a: Rank, b: Rank) {
    a == b || Less(a, b)
  }

  ghost function Left(rs: Option<seq<Answer>>, cur: int): nat {
    if rs.Some? && cur < |rs.value| then if cur < 0 then |rs.value| else |rs.value| - 1 - cur else 0
  }

  datatype Step = Use | GiveUp | GoOn | Skip

  /** The parts of `struct deliver` that `next_dnsr_host` uses.  `retryCur` is -1 when d_retry_cur is null;
    * `hostPref` and `retryPrefs` are the preferences of the records that the addresses come from.
    */
  class HostSearch {
    var result: Option<seq<Answer>>
    var cur: int
    var ips: Option<seq<Answer>>
    var curIp: int
    var retry: seq<string>
    var retryCur: int
    var cutoff: Option<nat>
    var host: string
    var movement: bool
    const aggressive: bool
    const ours: string -> bool
    ghost var fromMx: bool // `result` is the answer to an MX query
    ghost var hostPref: Option<nat>
    ghost var retryPrefs: seq<Option<nat>>

    constructor (aggressive: bool, ours: string -> bool)
      ensures Valid() && result == None && !movement && this.ours == ours
    {
      this.aggressive, this.ours := aggressive, ours;
      result, cur, ips, curIp, retry, retryCur, cutoff, host, movement := None, 0, None, 0, [], -1, None, "", false;
      fromMx, hostPref, retryPrefs := false, None, [];
    }

    ghost predicate Valid()
      reads `result, `cur, `ips, `curIp, `retry, `retryCur, `cutoff, `hostPref, `retryPrefs, `fromMx
    {
      && -1 <= retryCur < |retry| == |retryPrefs|
      && (result.None? || !aggressive ==> retry == [])
      && (result.Some? ==> -1 <= cur) && (ips.Some? ==> -1 <= curIp && result.Some? && 0 <= cur < |result.value|)
      && (result.Some? ==> cutoff == if fromMx then Cutoff(result.value, ours) else None)
      && (result.Some? && Guarded(result.value, cutoff) ==> OnlyBelow())
    }

    /** Nothing that has been tried or may be tried again comes from a record at or above the cutoff. */
    ghost predicate OnlyBelow()
      requires result.Some?
      reads `result, `cur, `ips, `cutoff, `hostPref, `retryPrefs
    {
      && Below(hostPref, cutoff)
      && (forall i :: 0 <= i < |retryPrefs| ==> Below(retryPrefs[i], cutoff))
      && (ips.Some? && 0 <= cur < |result.value| ==> Below(PrefOf(result.value[cur]), cutoff))
    }

    /** A host that moves mail is kept for a retry. */
    ghost predicate Retries()
      reads `movement
    {
      aggressive && movement
    }

    ghost function Ranking(): Rank
      reads `result, `cur, `ips, `curIp, `retry, `retryCur
    {
      Rank(if result.None? then 1 else 0, Left(result, cur), Left(ips, curIp), |retry|, if retryCur < 0 then 1 else 0)
    }

    /** An answer of the resolver, or a failure. */
    method Resolve() returns (r: Option<seq<Answer>>)
    {
      var answers: seq<Answer> :| true;
      var fails: bool := *;
      r := if fails then None else Some(answers);
    }

    /** queue.c:1738-1765: the scan for a record that names this host. */
    method FindCutoff(rs: seq<Answer>)
      requires cutoff.None?
      modifies `cutoff
      ensures cutoff == Cutoff(rs, ours)
    {
      for i := 0 to |rs|
        invariant cutoff.None?
        invariant Cutoff(rs, ours) == Cutoff(rs[i..], ours)
      {
        assert rs[i..][1..] == rs[i + 1..];
        if rs[i].Mx? && ours(rs[i].exchange) {
          cutoff := Some(rs[i].pref);
          return;
        }
      }
      assert rs[|rs|..] == [];
    }

    /** queue.c:1711-1806: MX records, or failing those A records; a host without either does not exist.  `mx` is the
      * answer to the MX query, and `a` the answer to the A query, if one is made.
      */
    method GetOutboundDns(mx: Option<seq<Answer>>, a: Option<seq<Answer>>) returns (ok: bool, bounce: bool)
      requires Valid() && result.None? && cutoff.None?
      modifies `result, `cutoff, `fromMx
      ensures result.Some? ==> cutoff == if fromMx then Cutoff(result.value, ours) else None
      ensures ok ==> result.Some? && (fromMx || result.value != [])
      ensures bounce ==> !ok
      ensures !ok ==> cutoff.None? && (result.None? || result == Some([]))
      ensures mx.Some? && mx.value != [] && mx.value != [Cname] ==> ok && fromMx && result == mx
      ensures mx == Some([]) || mx == Some([Cname]) ==>
          result == a && !fromMx && (ok <==> a.Some? && a.value != []) && (bounce <==> a == Some([]))
      ensures mx.None? ==> result == None && !ok && !bounce
    {
      result := mx;
      if result.None? { return false, false; }
      var records := result.value != [] && result.value != [Cname];
      fromMx := records;
      if records {
        FindCutoff(result.value);
        return true, false;
      }
      result := a;
      if result.None? { return false, false; }
      return result.value != [], result.value == [];
    }

    /** The records that are gone through, of the answers to the queries: those of the first query if it is for the
      * punt host or has MX records, and else the A records.
      */
    static function Chosen(punt: bool, first: Option<seq<Answer>>, a: Option<seq<Answer>>): Option<seq<Answer>> {
      if !punt && (first == Some([]) || first == Some([Cname])) then a else first
    }

    /** queue.c:1815-1850: the records to go through are looked up, by one query for the punt host. */
    method Begin(punt: bool, first: Option<seq<Answer>>, a: Option<seq<Answer>>) returns (ok: bool, bounce: bool)
      requires Valid() && result.None?
      modifies `result, `cutoff, `cur, `fromMx, `hostPref
      ensures Valid() && (ok ==> result.Some? && cur == -1) && (bounce ==> !ok && !punt) && (punt ==> cutoff.None?)
      ensures ok <==> Chosen(punt, first, a).Some? && Chosen(punt, first, a).value != []
      ensures ok ==> result == Chosen(punt, first, a)
      ensures ok ==> (fromMx <==> !punt && first.value != [] && first.value != [Cname])
      ensures bounce <==> !punt && (first == Some([]) || first == Some([Cname])) && a == Some([])
    {
      cutoff, cur, hostPref := None, 0, None;
      bounce := false;
      if punt {
        fromMx := false;
        result := first;
        ok := result.Some? && result.value != [];
      } else {
        ok, bounce := GetOutboundDns(first, a);
      }
      if ok {
        cur := -1;
      }
    }

    /** queue.c:1856-1895 and 2082-2100: the next entry of the retry list.  A host that moved no mail leaves it. */
    method NextRetry() returns (found: bool)
      requires Valid() && result.Some? && 0 <= retryCur
      modifies `retry, `retryCur, `retryPrefs, `host, `hostPref
      ensures Valid() && (found ==> host in old(retry)) && (found <==> retry != []) && (found <==> retryCur >= 0)
      ensures found ==> host == retry[retryCur] && hostPref == retryPrefs[retryCur]
      ensures !movement ==> retry == old(retry[..retryCur] + retry[retryCur + 1..])
      ensures !movement && found ==> retryCur == if old(retryCur) < |retry| then old(retryCur) else 0
      ensures movement ==> retry == old(retry) && found
      ensures movement ==> retryCur == if old(retryCur) + 1 < |retry| then old(retryCur) + 1 else 0
    {
      if !movement {
        retry := retry[..retryCur] + retry[retryCur + 1..];
        retryPrefs := retryPrefs[..retryCur] + retryPrefs[retryCur + 1..];
        if retryCur == |retry| {
          retryCur := if retry == [] then -1 else 0;
        }
        if retryCur == -1 { return false; }
      } else {
        retryCur := if retryCur + 1 < |retry| then retryCur + 1 else 0;
      }
      found := UseRetry();
    }

    method UseRetry() returns (found: bool)
      requires Valid() && result.Some? && 0 <= retryCur
      modifies `host, `hostPref
      ensures Valid() && found && host == retry[retryCur] && hostPref == retryPrefs[retryCur]
    {
      host, hostPref := retry[retryCur], retryPrefs[retryCur];
      return true;
    }

    /** queue.c:1958-1963 and 2041-2046: with nothing else left, the retry list is started. */
    method StartRetry() returns (found: bool)
      requires Valid() && result.Some? && retryCur < 0
      modifies `retryCur, `host, `hostPref
      ensures Valid() && (found <==> retry != []) && (!found ==> retryCur < 0)
      ensures found ==> retryCur == 0 && host == retry[0] && hostPref == retryPrefs[0]
    {
      if retry == [] { return false; }
      retryCur := 0;
      found := UseRetry();
    }

    /** No record before `n` has the preference of the cutoff. */
    ghost predicate Earlier(n: int)
      requires result.Some?
      reads `result, `cutoff
    {
      cutoff.Some? ==> forall i :: 0 <= i < n && i < |result.value| && result.value[i].Mx? ==>
          result.value[i].pref != cutoff.value
    }

    /** Nothing is to be retried, and `i` is still to come: a record in front of the cutoff that gives an address. */
    ghost predicate Ahead(i: int, punt: bool)
      reads `result, `cur, `retry, `retryCur, `cutoff, `movement
    {
      && result.Some? && retry == [] && retryCur < 0 && !movement
      && cur < i && 0 <= i < |result.value| && GivesOne(result.value[i], punt)
      && (cutoff.Some? ==> InFront(result.value, cutoff.value, i))
    }

    /** The address is the one that the record under the cursor gives. */
    ghost predicate FromRecord(punt: bool)
      reads `result, `cur, `host, `hostPref
    {
      && result.Some? && 0 <= cur < |result.value| && Gives(result.value[cur], punt, host)
      && hostPref == PrefOf(result.value[cur])
    }

    /** It is one of those that were looked up for this record. */
    ghost predicate FromIps()
      reads `result, `cur, `ips, `curIp, `host, `hostPref
    {
      && result.Some? && 0 <= cur < |result.value| && hostPref == PrefOf(result.value[cur])
      && ips.Some? && 0 <= curIp < |ips.value| && Usable(ips.value[curIp]) && ips.value[curIp] == A(host)
    }

    /** It is on the retry list. */
    ghost predicate FromRetry()
      reads `retry, `retryCur, `retryPrefs, `host, `hostPref
    {
      0 <= retryCur < |retry| == |retryPrefs| && host == retry[retryCur] && hostPref == retryPrefs[retryCur]
    }

    /** Where the address comes from that has been found. */
    ghost predicate Sourced(punt: bool)
      reads `result, `cur, `ips, `curIp, `retry, `retryCur, `retryPrefs, `host, `hostPref
    {
      if 0 <= retryCur then FromRetry() else if ips.Some? then FromIps() else FromRecord(punt)
    }

    /** Record `i` has just been used, or it is still to come. */
    ghost predicate UsedOrAhead(i: int, punt: bool)
      reads `result, `cur, `retry, `retryCur, `cutoff, `movement, `host, `hostPref
    {
      if cur == i then FromRecord(punt) else Ahead(i, punt)
    }

    /** queue.c:1915-2002: one record. */
    method TryRecord(punt: bool) returns (step: Step, ghost answers: Option<seq<Answer>>)
      requires Valid() && result.Some? && 0 <= cur < |result.value| && ips.None? && retryCur < 0
      requires punt ==> cutoff.None?
      requires Earlier(cur)
      modifies `ips, `curIp, `retryCur, `host, `hostPref
      ensures Valid()
      ensures step.Use? ==> (retryCur < 0 && Earlier(cur + 1)) || (retryCur == 0 && retry != [])
      ensures step.GiveUp? ==> retry == [] && retryCur < 0
      ensures step.Skip? || step.GoOn? ==> retryCur < 0 && Earlier(cur + 1)
      ensures if step.GoOn? then ips.Some? && curIp == -1 else ips.None?
      ensures step.Use? ==> Sourced(punt)
      ensures step.Use? && retry == [] ==> retryCur < 0
      ensures var r := result.value[cur];
              var stops := r.Mx? && !punt && cutoff == Some(r.pref);
              && (stops <==> step.GiveUp? || (step.Use? && 0 <= retryCur))
              && (GivesOne(r, punt) && !stops ==> step.Use? && retryCur < 0)
              && (step.GoOn? <==> r.Mx? && !punt && !stops && r.ip.None? && answers.Some? && answers.value != [])
              && (step.GoOn? ==> ips == answers)
    {
      match result.value[cur] {
        case A(addr) =>
          if !punt && Fake(addr) { return Skip, None; }
          host, hostPref := addr, None;
          assert Gives(result.value[cur], punt, addr);
          return Use, None;
        case Mx(pref, exchange, ip) =>
          if punt { return Skip, None; }
          if cutoff == Some(pref) {
            var found := StartRetry();
            return if found then Use else GiveUp, None;
          }
          assert cutoff.Some? ==> InFront(result.value, cutoff.value, cur);
          if ip.Some? {
            host, hostPref := ip.value, Some(pref);
            assert Gives(result.value[cur], punt, ip.value);
            return Use, None;
          }
          var looked := Resolve();
          answers := looked;
          if looked.None? || looked.value == [] { return Skip, answers; }
          ips, curIp := looked, -1;
          return GoOn, answers;
        case _ =>
          return Skip, None;
      }
    }

    /** queue.c:1911-2004: the records are gone through until one gives an address, or addresses to choose from. */
    method NextRecord(punt: bool) returns (step: Step)
      requires Valid() && result.Some? && ips.None? && retryCur < 0 && Earlier(cur + 1)
      requires punt ==> cutoff.None?
      modifies `cur, `ips, `curIp, `retryCur, `host, `hostPref
      ensures Valid() && cur > old(cur) && !step.Skip?
      ensures step.Use? ==>
          cur < |result.value| && ips.None? && ((retryCur < 0 && Earlier(cur + 1)) || (retryCur == 0 && retry != []))
      ensures step.GiveUp? ==> retry == [] && ips.None? && retryCur < 0
      ensures step.GoOn? ==>
          retryCur < 0 && Earlier(cur + 1) && (if cur < |result.value| then ips.Some? && curIp == -1 else ips.None?)
      ensures step.Use? ==> Sourced(punt)
      ensures forall i :: old(Ahead(i, punt)) ==>
          UsedOrAhead(i, punt) && !step.GiveUp? && (step.GoOn? ==> Ahead(i, punt) && ips.Some?)
    {
      cur := cur + 1;
      while cur < |result.value|
        invariant Valid() && ips.None? && retryCur < 0 && old(cur) < cur && Earlier(cur)
        invariant forall i :: old(Ahead(i, punt)) ==> cur <= i
        decreases |result.value| - cur
      {
        ghost var answers;
        step, answers := TryRecord(punt);
        if !step.Skip? { return; }
        cur := cur + 1;
      }
      return GoOn;
    }

    /** queue.c:2006-2039: the next of the addresses that were looked up for a record. */
    method NextIp() returns (found: bool)
      requires Valid() && result.Some? && ips.Some?
      modifies `curIp, `host, `hostPref
      ensures Valid() && curIp > old(curIp) && (found <==> curIp < |ips.value|)
      ensures found ==> ips.value[curIp] == A(host) && Usable(ips.value[curIp])
      ensures found ==> hostPref == PrefOf(result.value[cur])
      ensures forall j :: old(curIp) < j < curIp && j < |ips.value| ==> !Usable(ips.value[j])
    {
      curIp := curIp + 1;
      while curIp < |ips.value|
        invariant Valid() && old(curIp) < curIp
        invariant forall j :: old(curIp) < j < curIp && j < |ips.value| ==> !Usable(ips.value[j])
        decreases |ips.value| - curIp
      {
        var a := ips.value[curIp];
        if a.A? && !Fake(a.addr) {
          host, hostPref := a.addr, PrefOf(result.value[cur]);
          return true;
        }
        curIp := curIp + 1;
      }
      return false;
    }

    /** What holds between two searches. */
    ghost predicate Ready(punt: bool)
      reads `result, `cur, `ips, `curIp, `retry, `retryCur, `cutoff, `hostPref, `retryPrefs, `fromMx
    {
      && Valid()
      && (punt && result.Some? ==> cutoff.None?)
      && (result.Some? && (retryCur < 0 || ips.Some?) ==> Earlier(cur + 1))
    }

    /** queue.c:2006-2046: one of the addresses that were looked up, or else the retry list. */
    method NextLookedUp(punt: bool) returns (found: bool)
      requires Ready(punt) && result.Some? && retryCur < 0
      modifies `curIp, `retryCur, `host, `hostPref
      ensures (found ==> Sourced(punt)) && (!found ==> retry == [] && retryCur < 0)
      ensures Ready(punt)
      ensures if found then Less(Ranking(), old(Ranking())) else AtMost(Ranking(), old(Ranking()))
    {
      if ips.Some? {
        found := NextIp();
        if found { return; }
      }
      found := StartRetry();
    }

    /** queue.c:1906-2049, where the retry list has not been started. */
    method NextFresh(punt: bool) returns (found: bool)
      requires Ready(punt) && result.Some? && retryCur < 0
      modifies `cur, `ips, `curIp, `retryCur, `host, `hostPref
      ensures (found ==> Sourced(punt)) && (!found ==> retry == [])
      ensures Valid() && (found || ips.Some? ==> Ready(punt))
      ensures if found then Less(Ranking(), old(Ranking())) else AtMost(Ranking(), old(Ranking()))
      ensures Left(result, cur) <= old(Left(result, cur))
      ensures ips.Some? && old(ips).None? ==> Left(result, cur) < old(Left(result, cur))
      ensures forall i :: old(Ahead(i, punt)) ==> UsedOrAhead(i, punt) && (!found ==> Ahead(i, punt) && ips.Some?)
    {
      if ips.None? {
        var step := NextRecord(punt);
        if !step.GoOn? { return step.Use?; }
      }
      found := NextLookedUp(punt);
    }

    /** queue.c:1852-2049 */
    method NextStarted(punt: bool) returns (found: bool)
      requires Ready(punt) && result.Some?
      modifies `cur, `ips, `curIp, `retry, `retryPrefs, `retryCur, `host, `hostPref
      ensures (found ==> Sourced(punt)) && (!found ==> retry == [])
      ensures Valid() && (found || ips.Some? ==> Ready(punt))
      ensures !Retries() ==> if found then Less(Ranking(), old(Ranking())) else ips.Some? ==>
          AtMost(Ranking(), old(Ranking()))
      ensures old(result.Some? && 0 <= retryCur && movement) ==> found && 0 <= retryCur && retry == old(retry)
      ensures Left(result, cur) <= old(Left(result, cur))
      ensures ips.Some? && old(ips).None? ==> Left(result, cur) < old(Left(result, cur))
      ensures forall i :: old(Ahead(i, punt)) ==> UsedOrAhead(i, punt) && (!found ==> Ahead(i, punt) && ips.Some?)
      ensures old(retryCur) < 0 ==> retry == old(retry) + if Retries() then [old(host)] else []
    {
      if 0 <= retryCur {
        found := NextRetry();
      } else {
        if aggressive && movement {
          retry, retryPrefs := retry + [host], retryPrefs + [hostPref];
        }
        found := NextFresh(punt);
      }
    }

    /** next_dnsr_host, queue.c:1809-2049 */
    method Next(punt: bool) returns (found: bool, bounce: bool)
      requires Ready(punt)
      modifies this
      ensures (found ==> Sourced(punt)) && (!found ==> retry == [])
      ensures Valid() && (found || ips.Some? ==> Ready(punt) && result.Some?) && (bounce ==> !found && !punt)
      ensures !Retries() ==> if found then Less(Ranking(), old(Ranking())) else ips.Some? ==>
          AtMost(Ranking(), old(Ranking()))
      ensures old(result.Some? && 0 <= retryCur && movement) ==> found && 0 <= retryCur && retry == old(retry)
      ensures movement == old(movement)
      ensures old(result).Some? ==>
          result == old(result) && fromMx == old(fromMx) && Left(result, cur) <= old(Left(result, cur))
      ensures old(result).Some? && ips.Some? && old(ips).None? ==> Left(result, cur) < old(Left(result, cur))
      ensures forall i :: old(Ahead(i, punt)) ==> UsedOrAhead(i, punt) && (!found ==> Ahead(i, punt) && ips.Some?)
    {
      bounce := false;
      if result.None? {
        var ok;
        var first := Resolve();
        var a := Resolve();
        ok, bounce := Begin(punt, first, a);
        if !ok { return false, bounce; }
      }
      found := NextStarted(punt);
    }

    /** One round of next_dnsr_host_lookup (queue.c:1686-1698). */
    method LookupRound(punt: bool) returns (found: bool, bounce: bool, again: bool)
      requires Ready(punt)
      modifies this
      ensures (found || again ==> Ready(punt) && result.Some?) && Valid() && (bounce ==> !found && !punt)
      ensures !(found && again) && (found ==> Sourced(punt))
      ensures found ==> !movement && (!old(Retries()) ==> Less(Ranking(), old(Ranking())))
      ensures old(result.Some? && 0 <= retryCur && movement) ==> found && 0 <= retryCur && retry == old(retry)
      ensures again ==> movement == old(movement) && ips.None? && (!Retries() ==> AtMost(Ranking(), old(Ranking())))
      ensures again && old(result).Some? ==>
          Left(result, cur) < old(Left(result, cur)) || (old(ips).Some? && Left(result, cur) <= old(Left(result, cur)))
      ensures !found && !again ==> retry == [] && ips.None?
      ensures old(result).Some? ==> result == old(result) && fromMx == old(fromMx)
      ensures forall i :: old(Ahead(i, punt)) ==> UsedOrAhead(i, punt) && (!found ==> Ahead(i, punt) && again)
    {
      found, bounce := Next(punt);
      again := !found && ips.Some?;
      if found {
        movement := false;
      } else {
        ips := None;
      }
    }

    /** next_dnsr_host_lookup, queue.c:1682-1708: an address to connect to, or none is left.  In a guarded answer it
      * is below the cutoff.  A record in front of the cutoff that came with an address is not passed over, guarded
      * or not.
      */
    method Lookup(punt: bool) returns (found: bool, bounce: bool)
      requires Ready(punt)
      modifies this
      ensures Ready(punt) && (found <==> result.Some?) && (found ==> !movement) && (bounce ==> !found && !punt)
      ensures found && !old(Retries()) ==> Less(Ranking(), old(Ranking()))
      ensures old(result.Some? && 0 <= retryCur && movement) ==> found && 0 <= retryCur && retry == old(retry)
      ensures found && old(result).Some? ==> result == old(result) && fromMx == old(fromMx)
      ensures found && fromMx && Guarded(result.value, cutoff) ==>
          cutoff == Cutoff(result.value, ours) && Below(hostPref, cutoff)
      ensures found ==> Sourced(punt)
      ensures forall i :: old(Ahead(i, punt)) ==> found && UsedOrAhead(i, punt)
    {
      while true
        invariant Ready(punt) && movement == old(movement)
        invariant !Retries() ==> AtMost(Ranking(), old(Ranking()))
        invariant old(result.Some? && 0 <= retryCur && movement) ==>
            result.Some? && 0 <= retryCur && retry == old(retry)
        invariant old(result).Some? ==> result == old(result) && fromMx == old(fromMx)
        invariant forall i :: old(Ahead(i, punt)) ==> Ahead(i, punt)
        decreases if result.None? then 1 else 0, Left(result, cur), ips.Some?
      {
        var again;
        found, bounce, again := LookupRound(punt);
        if found { return; }
        if !again { break; }
      }
      result := None;
    }
  }

  /** With aggressive delivery the search for a punt host need not end: as long as the hosts of the retry list move
    * mail, they are handed out again and again.
    */
  method RetriedForever(search: HostSearch, n: nat)
    requires search.Ready(true) && search.result.Some? && 0 <= search.retryCur
    modifies search
    ensures search.Ready(true) && search.result.Some? && 0 <= search.retryCur && search.retry == old(search.retry)
  {
    for i := 0 to n
      invariant search.Ready(true) && search.result.Some? && 0 <= search.retryCur && search.retry == old(search.retry)
    {
      search.movement := true;
      var found, _ := search.Lookup(true);
      assert found;
    }
  }

  /** A record in front of the cutoff that gives an address is tried, whatever the answer is: its own address is handed
    * out.
    */
  method RecordIsTried(punt: bool, first: Option<seq<Answer>>, a: Option<seq<Answer>>, ours: string -> bool, i: nat)
    returns (search: HostSearch)
    requires var rs := HostSearch.Chosen(punt, first, a);
             && rs.Some? && i < |rs.value| && GivesOne(rs.value[i], punt)
             && (!punt && rs == first && Cutoff(rs.value, ours).Some? ==>
                   InFront(rs.value, Cutoff(rs.value, ours).value, i))
    ensures search.result == HostSearch.Chosen(punt, first, a)
    ensures Gives(search.result.value[i], punt, search.host) && search.hostPref == PrefOf(search.result.value[i])
    ensures search.cutoff == if !punt && first == search.result then Cutoff(search.result.value, ours) else None
  {
    search := new HostSearch(false, ours);
    var found, bounce := search.Begin(punt, first, a);
    while search.cur < i
      invariant fresh(search) && search.ours == ours && search.Ready(punt)
      invariant search.result == HostSearch.Chosen(punt, first, a)
      invariant search.fromMx <==> !punt && first.value != [] && first.value != [Cname]
      invariant search.UsedOrAhead(i, punt)
      decreases search.Ranking().undecided, search.Ranking().records, search.Ranking().addresses,
        search.Ranking().retries, search.Ranking().unstarted
    {
      found, bounce := search.Lookup(punt);
    }
  }

  /** The guard is needed in every answer: a record in front of the cutoff that is not below it and comes with an
    * address is handed out.
    */
  method UnguardedIsTried(rs: seq<Answer>, ours: string -> bool, i: nat) returns (search: HostSearch)
    requires i < |rs| && rs[i].Mx? && rs[i].ip.Some? && Cutoff(rs, ours).Some?
    requires InFront(rs, Cutoff(rs, ours).value, i) && rs[i].pref > Cutoff(rs, ours).value
    ensures search.host == rs[i].ip.value && search.hostPref == Some(rs[i].pref)
    ensures search.cutoff == Cutoff(rs, ours) && !Below(search.hostPref, search.cutoff)
  {
    assert Gives(rs[i], false, rs[i].ip.value);
    assert rs != [Cname];
    search := RecordIsTried(false, Some(rs), None, ours, i);
  }
}
