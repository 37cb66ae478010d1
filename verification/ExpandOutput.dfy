/** How the released addresses of an expansion are distributed over new messages (expand.c:53-92 and 436-495): one for
  * every host and sender, and one in the dead directory.
  */
module ExpandOutput {
  import opened LetterCase
  import opened Lists

  /** A released address, and the sender of the message to it. */
  datatype Target = Mail(addr: string, from: string) | DeadMail(addr: string, from: string)

  /** strchr: what is behind the first at sign. */
  function HostOf(addr: string): string
    requires '@' in addr
  {
    if addr[0] == '@' then addr[1..] else HostOf(addr[1..])
  }

  /** In front of the host are the first at sign and a part without one. */
  lemma {:induction false} HostIsBehindTheSign(addr: string) returns (local: string)
    requires '@' in addr
    ensures addr == local + "@" + HostOf(addr) && '@' !in local
  {
    if addr[0] == '@' {
      local := "";
    } else {
      var rest := HostIsBehindTheSign(addr[1..]);
      local := [addr[0]] + rest;
      assert addr == [addr[0]] + addr[1..];
    }
  }

  /** The parts of `struct envelope` that the distribution uses.  A message without a host has the empty one here, as in
    * the list of outputs.
    */
  class Output {
    const dead: bool
    const host: string
    const from: string
    var rcpts: seq<string>

    constructor (dead: bool, host: string, from: string)
      ensures this.dead == dead && this.host == host && this.from == from && rcpts == []
    {
      this.dead, this.host, this.from, rcpts := dead, host, from, [];
    }
  }

  ghost predicate SameKey(o: Output, host: string, from: string) {
    Fold(o.host) == Fold(host) && Fold(o.from) == Fold(from)
  }

  /** eo_lookup (expand.c:53-68): the newest message for this host and sender. */
  method EoLookup(list: seq<Output>, host: string, from: string) returns (o: Output?)
    ensures o == null ==> forall p :: p in list ==> !SameKey(p, host, from)
    ensures o != null ==> exists k: nat :: IsNewest(list, k, host, from) && list[k] == o
  {
    for i := 0 to |list|
      invariant forall j :: 0 <= j < i ==> !SameKey(list[j], host, from)
    {
      if Fold(list[i].host) == Fold(host) && Fold(list[i].from) == Fold(from) {
        assert IsNewest(list, i, host, from);
        return list[i];
      }
    }
    return null;
  }

  ghost predicate IsNewest(list: seq<Output>, k: nat, host: string, from: string) {
    k < |list| && SameKey(list[k], host, from) && forall j :: 0 <= j < k ==> !SameKey(list[j], host, from)
  }

  /** The recipients of `o`, if the i-th address goes to `home[i]`; the last one comes first. */
  function Collected(ts: seq<Target>, home: seq<Output>, o: Output): seq<string>
    requires |ts| == |home|
  {
    if ts == [] then []
    else
      var n := |ts| - 1;
      (if home[n] == o then [ts[n].addr] else []) + Collected(ts[..n], home[..n], o)
  }

  lemma CollectedNext(ts: seq<Target>, home: seq<Output>, n: nat, h: Output, o: Output)
    requires n < |ts| && |home| == n
    ensures var rest := Collected(ts[..n], home, o);
            Collected(ts[..n + 1], home + [h], o) == if h == o then [ts[n].addr] + rest else rest
  {
    assert ts[..n + 1][..n] == ts[..n] && (home + [h])[..n] == home;
  }

  lemma {:induction false} CollectedNothing(ts: seq<Target>, home: seq<Output>, o: Output)
    requires |ts| == |home| && o !in home
    ensures Collected(ts, home, o) == []
  {
    if ts != [] {
      CollectedNothing(ts[..|ts| - 1], home[..|ts| - 1], o);
    }
  }

  /** The i-th address is the first dead one. */
  ghost predicate FirstDead(ts: seq<Target>, i: nat) {
    i < |ts| && ts[i].DeadMail? && forall j :: 0 <= j < i ==> ts[j].Mail?
  }

  ghost predicate DeadBefore(ts: seq<Target>, i: nat, from: string) {
    exists d: nat :: d < i && FirstDead(ts, d) && Fold(ts[d].from) == Fold(from)
  }

  /** This address has an empty host, and there is a dead message for its sender already: eo_insert has given that one
    * the empty host too.
    */
  ghost predicate Astray(ts: seq<Target>, i: nat) {
    && i < |ts| && ts[i].Mail? && '@' in ts[i].addr && HostOf(ts[i].addr) == "" && DeadBefore(ts, i, ts[i].from)
  }

  /** Where the i-th address belongs. */
  ghost predicate Belongs(ts: seq<Target>, i: nat, o: Output)
    requires i < |ts|
  {
    if ts[i].DeadMail? then o.dead else '@' in ts[i].addr && !o.dead && SameKey(o, HostOf(ts[i].addr), ts[i].from)
  }

  /** The first `n` addresses have their messages: each is where it belongs unless it is astray, and then it is in
    * the dead message; two other messages have different hosts or senders.
    */
  ghost predicate Routed(ts: seq<Target>, n: nat, home: seq<Output>, list: seq<Output>, dead: Output?)
    requires n <= |ts|
  {
    && |home| == n && (forall o :: o in home ==> o in list)
    && (forall i: nat :: i < n ==> if Astray(ts, i) then home[i] == dead else Belongs(ts, i, home[i]))
    && (forall o :: o in list ==> (o.dead <==> o == dead))
    && Distinct(list)
    && (forall o, p :: o in list && p in list && o != p && !o.dead && !p.dead ==> !SameKey(o, p.host, p.from))
  }

  /** No message that is newer than the dead one has its key. */
  ghost predicate DeadIsNewest(ts: seq<Target>, n: nat, list: seq<Output>, dead: Output?)
    requires n <= |ts|
  {
    if dead == null then forall i :: 0 <= i < n ==> ts[i].Mail?
    else
      && dead.dead && dead.host == "" && (exists d: nat :: d < n && FirstDead(ts, d) && ts[d].from == dead.from)
      && (exists k: nat :: IsNewest(list, k, "", dead.from) && list[k] == dead)
  }

  lemma FirstDeadOnce(ts: seq<Target>, d: nat, e: nat)
    requires FirstDead(ts, d) && FirstDead(ts, e)
    ensures d == e
  {}

  /** The message that eo_lookup finds is the right one, or the address is astray. */
  lemma FoundIsRight(ts: seq<Target>, n: nat, home: seq<Output>, list: seq<Output>, dead: Output?, o: Output)
    requires n < |ts| && ts[n].Mail? && '@' in ts[n].addr && Routed(ts, n, home, list, dead)
    requires DeadIsNewest(ts, n, list, dead)
    requires exists k: nat :: IsNewest(list, k, HostOf(ts[n].addr), ts[n].from) && list[k] == o
    ensures if Astray(ts, n) then o == dead else Belongs(ts, n, o)
  {
    var host, from := HostOf(ts[n].addr), ts[n].from;
    var k: nat :| IsNewest(list, k, host, from) && list[k] == o;
    assert |Fold(host)| == |host|;
    if Astray(ts, n) {
      var d: nat :| d < n && FirstDead(ts, d) && Fold(ts[d].from) == Fold(from);
      var e: nat :| e < n && FirstDead(ts, e) && ts[e].from == dead.from;
      FirstDeadOnce(ts, d, e);
      var j: nat :| IsNewest(list, j, "", dead.from) && list[j] == dead;
      assert k == j;
    }
  }

  /** If it finds none, the address is not astray. */
  lemma MissingIsNotAstray(ts: seq<Target>, n: nat, list: seq<Output>, dead: Output?)
    requires n < |ts| && ts[n].Mail? && '@' in ts[n].addr && DeadIsNewest(ts, n, list, dead)
    requires forall p :: p in list ==> !SameKey(p, HostOf(ts[n].addr), ts[n].from)
    ensures !Astray(ts, n)
  {
    if dead != null {
      var k: nat :| IsNewest(list, k, "", dead.from) && list[k] == dead;
      assert dead in list;
      var e: nat :| e < n && FirstDead(ts, e) && ts[e].from == dead.from;
      forall d: nat | d < n && FirstDead(ts, d)
        ensures d == e
      {
        FirstDeadOnce(ts, d, e);
      }
    }
  }

  /** A new message for a host goes in front of the list. */
  lemma NewMessage(ts: seq<Target>, n: nat, home: seq<Output>, list: seq<Output>, dead: Output?, o: Output)
    requires n < |ts| && ts[n].Mail? && '@' in ts[n].addr && Routed(ts, n, home, list, dead)
    requires DeadIsNewest(ts, n, list, dead)
    requires forall p :: p in list ==> !SameKey(p, HostOf(ts[n].addr), ts[n].from)
    requires o !in list && !o.dead && o.host == HostOf(ts[n].addr) && o.from == ts[n].from
    ensures Routed(ts, n + 1, home + [o], [o] + list, dead) && DeadIsNewest(ts, n + 1, [o] + list, dead)
  {
    MissingIsNotAstray(ts, n, list, dead);
    if dead != null {
      var k: nat :| IsNewest(list, k, "", dead.from) && list[k] == dead;
      assert !SameKey(o, "", dead.from);
      assert IsNewest([o] + list, k + 1, "", dead.from);
    }
  }

  /** So does the dead message. */
  lemma NewDead(ts: seq<Target>, n: nat, home: seq<Output>, list: seq<Output>, o: Output)
    requires n < |ts| && ts[n].DeadMail? && Routed(ts, n, home, list, null) && DeadIsNewest(ts, n, list, null)
    requires o !in list && o.dead && o.host == "" && o.from == ts[n].from
    ensures Routed(ts, n + 1, home + [o], [o] + list, o) && DeadIsNewest(ts, n + 1, [o] + list, o)
  {
    assert FirstDead(ts, n);
    assert IsNewest([o] + list, 0, "", o.from);
  }

  lemma KnownMessage(ts: seq<Target>, n: nat, home: seq<Output>, list: seq<Output>, dead: Output?, o: Output)
    requires n < |ts| && Routed(ts, n, home, list, dead) && DeadIsNewest(ts, n, list, dead) && o in list
    requires if Astray(ts, n) then o == dead else Belongs(ts, n, o)
    ensures Routed(ts, n + 1, home + [o], list, dead) && DeadIsNewest(ts, n + 1, list, dead)
  {}

  /** The message of the next address, new or not (expand.c:441-487).  Creating one can fail. */
  method FindOrCreate(ts: seq<Target>, n: nat, list: seq<Output>, dead: Output?, ghost home: seq<Output>)
    returns (o: Output?, more: seq<Output>, dead': Output?)
    requires n < |ts| && Routed(ts, n, home, list, dead) && DeadIsNewest(ts, n, list, dead)
    requires ts[n].Mail? ==> '@' in ts[n].addr
    ensures o != null ==> Routed(ts, n + 1, home + [o], more, dead') && DeadIsNewest(ts, n + 1, more, dead')
    ensures o != null ==> if o in list then more == list else fresh(o) && o.rcpts == [] && more == [o] + list
  {
    more, dead' := list, dead;
    var t := ts[n];
    var created: bool := *;
    match t {
      case Mail(addr, from) =>
        o := EoLookup(list, HostOf(addr), from);
        if o != null {
          FoundIsRight(ts, n, home, list, dead, o);
          KnownMessage(ts, n, home, list, dead, o);
          return;
        }
        if !created { return null, more, dead'; }
        o := new Output(false, HostOf(addr), from);
        NewMessage(ts, n, home, list, dead, o);
      case DeadMail(_, from) =>
        if dead != null {
          o := dead;
          KnownMessage(ts, n, home, list, dead, o);
          return;
        }
        if !created { return null, more, dead'; }
        o := new Output(true, "", from);
        dead' := o;
        NewDead(ts, n, home, list, o);
    }
    more := [o] + list;
  }

  /** Every message has the addresses that are to go to it, and it has at least one. */
  ghost predicate Filled(ts: seq<Target>, home: seq<Output>, list: seq<Output>)
    requires |ts| == |home|
    reads list`rcpts
  {
    forall o :: o in list ==> o.rcpts == Collected(ts, home, o) && o.rcpts != []
  }

  /** expand.c:436-495 for addresses that are released: every address becomes a recipient of one message, once.
    * Without a failed call this succeeds unless an address has no at sign.
    */
  method Distribute(ts: seq<Target>)
    returns (ok: bool, fault: bool, list: seq<Output>, dead: Output?, ghost home: seq<Output>)
    ensures ok ==> Routed(ts, |ts|, home, list, dead) && Filled(ts, home, list)
    ensures !ok && !fault ==> exists t :: t in ts && t.Mail? && '@' !in t.addr
  {
    list, dead, home, fault := [], null, [], false;
    for n := 0 to |ts|
      invariant Routed(ts, n, home, list, dead) && DeadIsNewest(ts, n, list, dead) && !fault
      invariant Filled(ts[..n], home, list) && forall o :: o in list ==> fresh(o)
    {
      if ts[n].Mail? && '@' !in ts[n].addr { return false, false, list, dead, home; }
      var o, more, dead' := FindOrCreate(ts, n, list, dead, home);
      if o == null { return false, true, list, dead, home; }
      Enter(ts, n, home, list, more, o);
      list, dead, home := more, dead', home + [o];
    }
    assert ts[..|ts|] == ts;
    ok := true;
  }

  /** env_recipient (envelope.c:420-451): the recipient becomes the first one. */
  method Enter(ts: seq<Target>, n: nat, ghost home: seq<Output>, ghost list: seq<Output>,
      ghost more: seq<Output>, o: Output)
    requires n < |ts| && |home| == n && Filled(ts[..n], home, list) && forall p :: p in home ==> p in list
    requires if o in list then more == list else o.rcpts == [] && more == [o] + list
    modifies o`rcpts
    ensures Filled(ts[..n + 1], home + [o], more)
  {
    if o !in list {
      CollectedNothing(ts[..n], home, o);
    }
    ghost var was := o.rcpts;
    assert was == Collected(ts[..n], home, o);
    o.rcpts := [ts[n].addr] + o.rcpts;
    forall p | p in more
      ensures p.rcpts == Collected(ts[..n + 1], home + [o], p) && p.rcpts != []
    {
      CollectedNext(ts, home, n, o, p);
    }
  }

  lemma {:induction false} CollectedMembers(ts: seq<Target>, home: seq<Output>, o: Output)
    requires |ts| == |home|
    ensures forall a :: a in Collected(ts, home, o) <==> exists j :: 0 <= j < |ts| && home[j] == o && ts[j].addr == a
  {
    if ts != [] {
      var n := |ts| - 1;
      CollectedMembers(ts[..n], home[..n], o);
      forall j | 0 <= j < |ts| && home[j] == o
        ensures ts[j].addr in Collected(ts, home, o)
      {
        assert j < n ==> ts[..n][j] == ts[j] && home[..n][j] == o;
      }
      forall a | a in Collected(ts[..n], home[..n], o)
        ensures exists j :: 0 <= j < |ts| && home[j] == o && ts[j].addr == a
      {
        var j :| 0 <= j < n && home[..n][j] == o && ts[..n][j].addr == a;
        assert home[j] == o && ts[j].addr == a;
      }
    }
  }

  /** Every address is a recipient of its message and of no other. */
  lemma InOneMessage(ts: seq<Target>, home: seq<Output>, o: Output, i: nat)
    requires i < |ts| == |home| && forall j :: 0 <= j < |ts| && j != i ==> ts[j].addr != ts[i].addr
    ensures ts[i].addr in Collected(ts, home, o) <==> o == home[i]
  {
    CollectedMembers(ts, home, o);
  }

  /** An address without a host joins the dead message of its sender. */
  lemma EmptyHostGoesAstray()
    ensures Astray([DeadMail("list", "owner"), Mail("user@", "owner")], 1)
  {
    var ts := [DeadMail("list", "owner"), Mail("user@", "owner")];
    assert FirstDead(ts, 0);
    assert "user@"[4] == '@';
    assert HostOf("user@") == "user@"[1..][1..][1..][1..][1..] == "";
  }
}
