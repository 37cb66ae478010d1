/** The messages that wait for one host, and the two counters kept beside the list (queue.c:181-251 and 723-767). */
module HostQueues {
  import opened SpoolOps
  import opened Delivery
  import opened Lists
  import opened LetterCase

  /** The parts of `struct envelope` that the queues use. */
  class Message {
    const env: Envelope
    const host: string // e_hostname, empty if there is none
    const prisoner: bool
    var etime: int
    var cycle: int
    var loaded: bool   // the recipients have been read
    var punt: bool
    var hq: HostQueue?

    constructor (env: Envelope, host: string, prisoner: bool, etime: int)
      ensures this.env == env && this.host == host && this.prisoner == prisoner && hq == null && !loaded && !punt
    {
      this.env, this.host, this.prisoner, this.etime := env, host, prisoner, etime;
      cycle, loaded, punt, hq := 0, false, false, null;
    }
  }

  function Prisoners(ms: seq<Message>): nat {
    if ms == [] then 0 else Prisoners(ms[..|ms| - 1]) + if ms[|ms| - 1].prisoner then 1 else 0
  }

  lemma {:induction false} PrisonersInserted(ms: seq<Message>, k: nat, m: Message)
    requires k <= |ms|
    ensures Prisoners(Inserted(ms, k, m)) == Prisoners(ms) + if m.prisoner then 1 else 0
  {
    var r := Inserted(ms, k, m);
    if k == |ms| {
      assert r[..|r| - 1] == ms;
    } else {
      var front := ms[..|ms| - 1];
      assert r[..|r| - 1] == Inserted(front, k, m);
      PrisonersInserted(front, k, m);
    }
  }

  /** The two counters agree if and only if every message is a prisoner. */
  lemma {:induction false} AllArePrisoners(ms: seq<Message>)
    ensures Prisoners(ms) <= |ms| && (Prisoners(ms) == |ms| <==> forall m :: m in ms ==> m.prisoner)
  {
    if ms != [] {
      AllArePrisoners(ms[..|ms| - 1]);
      assert ms == ms[..|ms| - 1] + [ms[|ms| - 1]];
    }
  }

  lemma PrisonersRemoved(ms: seq<Message>, k: nat)
    requires k < |ms|
    ensures Prisoners(Removed(ms, k)) == Prisoners(ms) - if ms[k].prisoner then 1 else 0
  {
    InsertedAgain(ms, k);
    PrisonersInserted(Removed(ms, k), k, ms[k]);
  }

  /** Oldest attempt first. */
  ghost predicate Ordered(ms: seq<Message>)
    reads ms`etime
  {
    forall i, j :: 0 <= i < j < |ms| ==> ms[i].etime <= ms[j].etime
  }

  /** Behind every message that is not younger, in front of all others: a message that comes later waits longer. */
  ghost predicate Position(ms: seq<Message>, k: nat, m: Message)
    reads ms`etime, m`etime
  {
    && k <= |ms| && (forall j :: 0 <= j < k ==> ms[j].etime <= m.etime)
    && (k < |ms| ==> m.etime < ms[k].etime)
  }

  lemma InsertedIsOrdered(ms: seq<Message>, k: nat, m: Message)
    requires Position(ms, k, m)
    ensures Ordered(ms) ==> Ordered(Inserted(ms, k, m))
  {}

  lemma RemovedIsOrdered(ms: seq<Message>, k: nat)
    requires k < |ms|
    ensures Ordered(ms) ==> Ordered(Removed(ms, k))
  {}

  /** The messages that the last scan of the disk has seen. */
  ghost function Seen(ms: seq<Message>, cycle: int): set<Message>
    reads ms`cycle
  {
    set m | m in ms && m.cycle == cycle
  }

  ghost function Among(ms: seq<Message>, seen: set<Message>): seq<Message> {
    if ms == [] then []
    else if ms[|ms| - 1] in seen then Among(ms[..|ms| - 1], seen) + [ms[|ms| - 1]]
    else Among(ms[..|ms| - 1], seen)
  }

  lemma {:induction false} AmongIs(ms: seq<Message>, seen: set<Message>)
    ensures forall i :: 0 <= i < |Among(ms, seen)| ==> Among(ms, seen)[i] in ms && Among(ms, seen)[i] in seen
    ensures forall m :: m in ms && m in seen ==> m in Among(ms, seen)
    ensures |Among(ms, seen)| <= |ms|
    ensures Distinct(ms) ==> Distinct(Among(ms, seen))
  {
    if ms != [] {
      var front, m := ms[..|ms| - 1], ms[|ms| - 1];
      AmongIs(front, seen);
      assert ms == front + [m];
      assert Distinct(ms) ==> m !in front;
    }
  }

  ghost predicate Bounded(ms: seq<Message>, limit: int)
    reads ms`etime
  {
    forall m :: m in ms ==> m.etime <= limit
  }

  lemma OrderedFront(front: seq<Message>, m: Message)
    ensures Ordered(front + [m]) <==> Ordered(front) && Bounded(front, m.etime)
  {
    var r := front + [m];
    if Ordered(r) {
      forall i, j | 0 <= i < j < |front|
        ensures front[i].etime <= front[j].etime
      {
        assert r[i].etime <= r[j].etime;
      }
      forall x | x in front
        ensures x.etime <= m.etime
      {
        var i :| 0 <= i < |front| && front[i] == x;
        assert r[i].etime <= r[|front|].etime;
      }
    }
  }

  lemma {:induction false} AmongIsOrdered(ms: seq<Message>, seen: set<Message>)
    requires Ordered(ms)
    ensures Ordered(Among(ms, seen))
  {
    if ms != [] {
      var front, m := ms[..|ms| - 1], ms[|ms| - 1];
      assert ms == front + [m];
      OrderedFront(front, m);
      AmongIsOrdered(front, seen);
      AmongIs(front, seen);
      assert Bounded(Among(front, seen), m.etime);
      OrderedFront(Among(front, seen), m);
    }
  }

  /** `struct host_q`; the queue of the messages that are not expanded has the empty name. */
  class HostQueue {
    const name: string
    const punts: bool  // this is the queue of the punt host
    var status: HostStatus
    var noPunt: bool
    var msgs: seq<Message>
    var entries: int
    var jailed: int

    constructor (name: string, punts: bool, noPunt: bool, status: HostStatus)
      requires punts <==> status in {Punt, PuntDown}
      ensures this.name == name && this.punts == punts && this.noPunt == noPunt && this.status == status
      ensures msgs == [] && Valid()
    {
      this.name, this.punts, this.noPunt, this.status := name, punts, noPunt, status;
      msgs, entries, jailed := [], 0, 0;
    }

    /** The message belongs here: mail that is punted to the punt host, any other to the host it names. */
    ghost predicate Fits(m: Message)
      reads m`punt
    {
      m.punt == punts && (punts || Fold(name) == Fold(m.host))
    }

    /** The counters agree with the list, its members belong here and know where they are, and only the punt host is
      * punted to.
      */
    ghost predicate Valid()
      reads this, msgs`hq, msgs`punt
    {
      && entries == |msgs| && jailed == Prisoners(msgs) && Distinct(msgs)
      && (forall m :: m in msgs ==> m.hq == this && Fits(m)) && (punts <==> status in {Punt, PuntDown})
    }

    ghost predicate Holds(ms: seq<Message>)
      reads this
    {
      msgs == ms && entries == |ms| && jailed == Prisoners(ms)
    }

    method Locate(m: Message) returns (k: nat)
      ensures Position(msgs, k, m)
    {
      k := 0;
      while k < |msgs| && m.etime >= msgs[k].etime
        invariant k <= |msgs| && forall j :: 0 <= j < k ==> msgs[j].etime <= m.etime
      {
        k := k + 1;
      }
    }

    method Link(m: Message, k: nat)
      requires Holds(msgs) && k <= |msgs|
      modifies `msgs, `entries, `jailed, m`hq
      ensures m.hq == this && Holds(Inserted(old(msgs), k, m))
    {
      PrisonersInserted(msgs, k, m);
      msgs := Inserted(msgs, k, m);
      m.hq := this;
      entries := entries + 1;
      if m.prisoner {
        jailed := jailed + 1;
      }
    }

    /** queue.c:204-226 */
    method Insert(m: Message) returns (ghost k: nat)
      requires Valid() && m.hq == null && Fits(m)
      modifies `msgs, `entries, `jailed, m`hq
      ensures Valid() && m.hq == this
      ensures old(Position(msgs, k, m)) && msgs == Inserted(old(msgs), k, m)
      ensures old(Ordered(msgs)) ==> Ordered(msgs)
    {
      var i := Locate(m);
      k := i;
      InsertedMembers(msgs, k, m);
      Link(m, i);
      InsertedIsOrdered(old(msgs), k, m);
    }

    /** queue_remove_envelope (queue.c:230-251): the message is found, because it says that it is here. */
    method Remove(m: Message, ghost k: nat)
      requires Valid() && k < |msgs| && msgs[k] == m
      modifies `msgs, `entries, `jailed, m`hq
      ensures Valid() && m.hq == null && msgs == Removed(old(msgs), k)
      ensures old(Ordered(msgs)) ==> Ordered(msgs)
    {
      var i := 0;
      while msgs[i] != m
        invariant 0 <= i <= k
        decreases k - i
      {
        i := i + 1;
      }
      assert i == k;
      PrisonersRemoved(msgs, k);
      RemovedMembers(msgs, k);
      RemovedIsOrdered(msgs, k);
      msgs := Removed(msgs, i);
      entries := entries - 1;
      if m.prisoner {
        jailed := jailed - 1;
      }
      m.hq := null;
    }

    /** queue.c:263-273: the list is taken apart. */
    method Clear() returns (ms: seq<Message>)
      requires Valid()
      modifies `msgs, `entries, `jailed, msgs`hq
      ensures Valid() && msgs == [] && ms == old(msgs) && Distinct(ms) && forall m :: m in ms ==> m.hq == null
    {
      ms := msgs;
      msgs, entries, jailed := [], 0, 0;
      forall m | m in ms {
        m.hq := null;
      }
    }

    /** prune_messages (queue.c:723-767): what the last scan of the disk did not find is dropped, and both counters
      * are right afterwards, whatever they were.
      */
    method Prune(cycle: int) returns (removed: nat)
      requires Distinct(msgs) && (forall m :: m in msgs ==> m.hq == this && Fits(m))
      requires punts <==> status in {Punt, PuntDown}
      modifies `msgs, `entries, `jailed
      ensures Valid() && msgs == Among(old(msgs), Seen(old(msgs), cycle)) && removed == |old(msgs)| - |msgs|
      ensures old(Ordered(msgs)) ==> Ordered(msgs)
    {
      ghost var before, seen := msgs, Seen(msgs, cycle);
      AmongIs(before, seen);
      if Ordered(before) {
        AmongIsOrdered(before, seen);
      }
      removed := Recount(cycle, seen);
    }

    method Recount(cycle: int, ghost seen: set<Message>) returns (removed: nat)
      requires forall m :: m in msgs ==> (m in seen <==> m.cycle == cycle)
      modifies `msgs, `entries, `jailed
      ensures Holds(Among(old(msgs), seen)) && removed == |old(msgs)| - |msgs|
    {
      ghost var before, n := msgs, 0;
      entries, jailed, removed := 0, 0, 0;
      assert before[..0] == [];
      while entries < |msgs|
        invariant Pruning(before, n, seen) && n == entries + removed
        decreases |before| - n
      {
        assert msgs[entries] in before by { PruneNext(before, n, seen); }
        var gone := PruneOne(before, n, seen, cycle);
        if gone {
          removed := removed + 1;
        }
        n := n + 1;
      }
      assert before[..n] == before;
    }

    method PruneOne(ghost before: seq<Message>, ghost n: nat, ghost seen: set<Message>, cycle: int) returns (gone: bool)
      requires Pruning(before, n, seen) && entries < |msgs|
      requires msgs[entries] in seen <==> msgs[entries].cycle == cycle
      modifies `msgs, `entries, `jailed
      ensures n < |before| && Pruning(before, n + 1, seen) && entries == old(entries) + if gone then 0 else 1
    {
      PruneNext(before, n, seen);
      gone := msgs[entries].cycle != cycle;
      if gone {
        msgs := Removed(msgs, entries);
      } else {
        entries := entries + 1;
        if msgs[entries - 1].prisoner {
          jailed := jailed + 1;
        }
      }
    }

    ghost predicate Pruning(before: seq<Message>, n: nat, seen: set<Message>)
      reads this
    {
      n <= |before| && 0 <= entries == |Among(before[..n], seen)| && jailed == Prisoners(Among(before[..n], seen))
      && msgs == Among(before[..n], seen) + before[n..]
    }

    lemma PruneNext(before: seq<Message>, n: nat, seen: set<Message>)
      requires Pruning(before, n, seen) && entries < |msgs|
      ensures n < |before| && msgs[entries] == before[n]
      ensures before[n] !in seen ==>
        |Among(before[..n + 1], seen)| == entries && jailed == Prisoners(Among(before[..n + 1], seen))
        && Removed(msgs, entries) == Among(before[..n + 1], seen) + before[n + 1..]
      ensures before[n] in seen ==>
        |Among(before[..n + 1], seen)| == entries + 1 && msgs == Among(before[..n + 1], seen) + before[n + 1..]
        && Prisoners(Among(before[..n + 1], seen)) == jailed + if before[n].prisoner then 1 else 0
    {
      assert before[..n + 1][..n] == before[..n];
      var kept := Among(before[..n], seen);
      assert (kept + [before[n]])[..|kept|] == kept;
    }
  }
}
