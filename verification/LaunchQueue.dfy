/** The launch list: host queues in a doubly linked list sorted by launch time (queue.c:570-706, daemon.c:786-836 and
  * 1001-1058).
  */
module LaunchQueue {
  import opened Options
  import opened Backoff
  import opened Lists

  class HostQ {
    var prev: HostQ?
    var next: HostQ?
    const minWait: nat
    const maxWait: nat
    var times: Times
    var launches: nat
    var entries: nat
    var jailEnvs: nat

    constructor (minWait: nat, maxWait: nat)
      requires 0 < minWait <= maxWait
      ensures this.minWait == minWait && this.maxWait == maxWait && Unlinked() && times == Times(0, 0, 0, false)
    {
      this.minWait, this.maxWait := minWait, maxWait;
      prev, next, times, launches, entries, jailEnvs := null, null, Times(0, 0, 0, false), 0, 0, 0;
    }

    ghost predicate Unlinked()
      reads this`prev, this`next
    {
      prev == null && next == null
    }
  }

  ghost function At(q: seq<HostQ>, i: int): HostQ? {
    if 0 <= i < |q| then q[i] else null
  }

  /** `q` is what the links spell out, from the front. */
  ghost predicate Chain(q: seq<HostQ>)
    reads q`prev, q`next
  {
    && Distinct(q)
    && (forall i {:trigger q[i].prev} {:trigger q[i].next} :: 0 <= i < |q| ==>
        q[i].prev == At(q, i - 1) && q[i].next == At(q, i + 1))
  }

  ghost predicate Sorted(q: seq<HostQ>)
    reads q`times
  {
    forall i, j :: 0 <= i < j < |q| ==> q[i].times.next <= q[j].times.next
  }

  /** The links around position `k` lead past it. */
  lemma Bridged(q: seq<HostQ>, k: nat)
    requires k < |q| && Distinct(q)
    requires forall j {:trigger q[j].prev} :: 0 <= j < |q| && j != k ==>
        q[j].prev == if j == k + 1 then At(q, k - 1) else At(q, j - 1)
    requires forall j {:trigger q[j].next} :: 0 <= j < |q| && j != k ==>
        q[j].next == if j == k - 1 then At(q, k + 1) else At(q, j + 1)
    ensures Chain(Removed(q, k)) && q[k] !in Removed(q, k)
    ensures At(Removed(q, k), 0) == if k == 0 then At(q, 1) else q[0]
  {}

  /** The links around position `k` lead through `hq`. */
  lemma Joined(q: seq<HostQ>, k: nat, hq: HostQ)
    requires k <= |q| && Distinct(q) && hq !in q && hq.prev == At(q, k - 1) && hq.next == At(q, k)
    requires forall j {:trigger q[j].prev} :: 0 <= j < |q| ==> q[j].prev == if j == k then hq else At(q, j - 1)
    requires forall j {:trigger q[j].next} :: 0 <= j < |q| ==> q[j].next == if j == k - 1 then hq else At(q, j + 1)
    ensures Chain(Inserted(q, k, hq)) && At(Inserted(q, k, hq), 0) == if k == 0 then hq else q[0]
  {}

  ghost function Members(q: seq<HostQ>): set<HostQ> {
    set x | x in q
  }

  lemma RemovedSorted(q: seq<HostQ>, k: nat)
    requires Sorted(q) && k < |q|
    ensures Sorted(Removed(q, k))
  {}

  /** `hq` belongs at position `k`. */
  ghost predicate Fits(q: seq<HostQ>, k: nat, hq: HostQ)
    requires k <= |q|
    reads q`times, hq`times
  {
    && (forall j :: 0 <= j < k ==> q[j].times.next <= hq.times.next)
    && (forall j :: k <= j < |q| ==> hq.times.next <= q[j].times.next)
  }

  lemma FitsIsSorted(q: seq<HostQ>, k: nat, hq: HostQ)
    requires Sorted(q) && k <= |q| && Fits(q, k, hq)
    ensures Sorted(Inserted(q, k, hq))
  {}

  /** A launched queue is not due again, unless its first wait was drawn as zero: then its next one is longer. */
  lemma LaunchProgress(t: Times, s: Setting, now: int, later: int)
    requires Sane(s) && 0 < now <= later && t.next <= now
    ensures var r := Launched(t, s, later);
            r.next > now || ((t.wait == 0 || t.leaky) && r.wait > 0 && !r.leaky)
  {}

  lemma Shrinks<T>(a: set<T>, b: set<T>, x: T)
    requires a - {x} == b - {x} && x !in a
    ensures |a| == |b| - if x in b then 1 else 0
  {
    assert a == b - {x};
  }

  /** The first multiple of the limit is the limit. */
  lemma Multiple(n: nat, limit: nat)
    ensures 0 < n <= limit ==> (n % limit == 0 <==> n == limit)
  {}

  datatype Stop = Idle | Limited | Busy | Failed

  class LaunchList {
    var head: HostQ?
    ghost var queue: seq<HostQ>

    ghost predicate Linked()
      reads this, queue`prev, queue`next
    {
      Chain(queue) && head == At(queue, 0)
    }

    ghost predicate Valid()
      reads this, queue`prev, queue`next, queue`times
    {
      Linked() && Sorted(queue)
    }

    const mailJail: bool
    const jailSeconds: nat

    constructor (mailJail: bool, jailSeconds: nat)
      requires jailSeconds > 0
      ensures Valid() && queue == [] && this.mailJail == mailJail && this.jailSeconds == jailSeconds
    {
      this.mailJail, this.jailSeconds := mailJail, jailSeconds;
      head, queue := null, [];
    }

    /** What the next wait of `hq` depends on; `random` is the value of random(). */
    function SettingOf(hq: HostQ, random: nat): Setting
      reads hq`entries, hq`jailEnvs
    {
      Setting(hq.minWait, hq.maxWait, mailJail && hq.entries == hq.jailEnvs, jailSeconds, random)
    }

    /** queue.c:685-702 for a queue in the list. */
    method Bridge(hq: HostQ, ghost k: nat)
      requires Linked() && k < |queue| && queue[k] == hq
      modifies `head, queue`prev, queue`next
      ensures forall j {:trigger queue[j].prev} :: 0 <= j < |queue| && j != k ==>
          queue[j].prev == if j == k + 1 then At(queue, k - 1) else At(queue, j - 1)
      ensures forall j {:trigger queue[j].next} :: 0 <= j < |queue| && j != k ==>
          queue[j].next == if j == k - 1 then At(queue, k + 1) else At(queue, j + 1)
      ensures hq.Unlinked() && head == if k == 0 then At(queue, 1) else At(queue, 0)
    {
      assert hq.prev == At(queue, k - 1) && hq.next == At(queue, k + 1);
      if hq.prev == null {
        if head == hq {
          head := hq.next;
        }
      } else {
        hq.prev.next := hq.next;
      }
      if hq.next != null {
        hq.next.prev := hq.prev;
      }
      hq.next := null;
      hq.prev := null;
    }

    /** queue.c:683-706: a queue that is not in the list is left alone. */
    method Pop(hq: HostQ, ghost k: nat)
      requires Linked()
      requires if hq in queue then k < |queue| && queue[k] == hq else hq.Unlinked()
      modifies this, queue`prev, queue`next
      ensures Linked() && hq.Unlinked()
      ensures queue == if hq in old(queue) then Removed(old(queue), k) else old(queue)
    {
      if hq.prev == null && head != hq { return; }
      Bridge(hq, k);
      Bridged(queue, k);
      queue := Removed(queue, k);
    }

    /** queue.c:648-666: the position is behind every queue that is not launched later, except that a queue goes
      * before an equal head.
      */
    method FindPosition(hq: HostQ) returns (after: HostQ?, ghost k: nat)
      requires Valid() && hq !in queue
      ensures k <= |queue| && Fits(queue, k, hq) && after == At(queue, k - 1)
      ensures k == 0 <==> queue == [] || hq.times.next <= queue[0].times.next
      ensures 0 < k < |queue| ==> hq.times.next < queue[k].times.next
    {
      if head == null || head.times.next >= hq.times.next { return null, 0; }
      var insert := head;
      k := 1;
      while insert.next != null && insert.next.times.next <= hq.times.next
        invariant 1 <= k <= |queue| && insert == queue[k - 1] && insert.times.next <= hq.times.next
        decreases |queue| - k
      {
        assert queue[k - 1].next == At(queue, k);
        insert := insert.next;
        k := k + 1;
      }
      assert queue[k - 1].next == At(queue, k);
      after := insert;
    }

    /** queue.c:648-673, the links. */
    method Link(hq: HostQ, after: HostQ?, ghost k: nat)
      requires Linked() && hq !in queue && hq.Unlinked() && k <= |queue| && after == At(queue, k - 1)
      modifies `head, queue`prev, queue`next, hq`prev, hq`next
      ensures hq.prev == At(queue, k - 1) && hq.next == At(queue, k)
      ensures forall j {:trigger queue[j].prev} :: 0 <= j < |queue| ==>
          queue[j].prev == if j == k then hq else At(queue, j - 1)
      ensures forall j {:trigger queue[j].next} :: 0 <= j < |queue| ==>
          queue[j].next == if j == k - 1 then hq else At(queue, j + 1)
      ensures head == if k == 0 then hq else At(queue, 0)
    {
      if after == null {
        hq.next := head;
        if hq.next != null {
          head.prev := hq;
        }
        head := hq;
      } else {
        assert queue[k - 1].next == At(queue, k);
        hq.next := after.next;
        if hq.next != null {
          hq.next.prev := hq;
        }
        after.next := hq;
        hq.prev := after;
      }
    }

    /** Linking leaves every launch time alone, so `r` stays sorted. */
    method LinkSorted(hq: HostQ, after: HostQ?, ghost k: nat, ghost r: seq<HostQ>)
      requires Linked() && hq !in queue && hq.Unlinked() && k <= |queue| && after == At(queue, k - 1) && Sorted(r)
      modifies `head, queue`prev, queue`next, hq`prev, hq`next
      ensures Chain(Inserted(queue, k, hq)) && head == At(Inserted(queue, k, hq), 0) && Sorted(r)
    {
      Link(hq, after, k);
      Joined(queue, k, hq);
    }

    method Place(hq: HostQ) returns (ghost k: nat)
      requires Valid() && hq !in queue && hq.Unlinked()
      modifies `head, `queue, queue`prev, queue`next, hq`prev, hq`next
      ensures Valid() && k <= |old(queue)| && queue == Inserted(old(queue), k, hq)
    {
      var after;
      after, k := FindPosition(hq);
      ghost var r := Inserted(queue, k, hq);
      FitsIsSorted(queue, k, hq);
      LinkSorted(hq, after, k, r);
      queue := r;
    }

    /** queue.c:570-679 */
    method Push(hq: HostQ, now: int, delay: Option<int>, random: nat) returns (ghost k: nat)
      requires Valid() && hq !in queue && hq.Unlinked() && Sane(SettingOf(hq, random))
      modifies `head, `queue, queue`prev, queue`next, hq`prev, hq`next, hq`times
      ensures Valid() && k <= |old(queue)| && queue == Inserted(old(queue), k, hq)
      ensures var jailed := mailJail && hq.entries == hq.jailEnvs;
        hq.times == Pushed(old(hq.times), Setting(hq.minWait, hq.maxWait, jailed, jailSeconds, random), now, delay)
    {
      hq.times := Pushed(hq.times, SettingOf(hq, random), now, delay);
      k := Place(hq);
    }

    /** Unlinking leaves every launch time alone, so `r` stays sorted. */
    method PopSorted(hq: HostQ, ghost k: nat, ghost r: seq<HostQ>)
      requires Linked() && Sorted(r)
      requires if hq in queue then k < |queue| && queue[k] == hq else hq.Unlinked()
      modifies this, queue`prev, queue`next
      ensures Linked() && hq.Unlinked() && Sorted(r)
      ensures queue == if hq in old(queue) then Removed(old(queue), k) else old(queue)
    {
      Pop(hq, k);
    }

    /** Afterwards `hq` is not in the list, and nothing else about the list has changed. */
    method Withdraw(hq: HostQ, ghost k: nat)
      requires Valid()
      requires if hq in queue then k < |queue| && queue[k] == hq else hq.Unlinked()
      modifies this, Members(queue)`prev, Members(queue)`next
      ensures Valid() && hq.Unlinked() && hq !in queue
      ensures Members(queue) == Members(old(queue)) - {hq}
    {
      ghost var r := queue;
      if hq in queue {
        r := Removed(queue, k);
        RemovedMembers(queue, k);
        RemovedSorted(queue, k);
      }
      PopSorted(hq, k, r);
    }

    method SetTimes(hq: HostQ, t: Times)
      requires Valid() && hq !in queue
      modifies hq`times
      ensures Valid() && hq.times == t
    {
      hq.times := t;
    }

    /** Push, in terms of the members of the list; `t` and `s` name what the new times follow from. */
    method Reinsert(hq: HostQ, now: int, delay: Option<int>, random: nat, ghost t: Times, ghost s: Setting)
      returns (ghost k: nat)
      requires Valid() && hq !in queue && hq.Unlinked() && Sane(s) && s == SettingOf(hq, random) && t == hq.times
      modifies `head, `queue, Members(queue)`prev, Members(queue)`next, hq`prev, hq`next, hq`times
      ensures Valid() && Members(queue) == Members(old(queue)) + {hq}
      ensures hq.times == Pushed(t, s, now, delay)
    {
      ghost var p := queue;
      k := Push(hq, now, delay, random);
      InsertedMembers(p, k, hq);
    }

    /** A promotion (daemon.c:1684-1690) or a leak (daemon.c:1216-1226): out of the list and in again. */
    method Repush(hq: HostQ, now: int, delay: Option<int>, leak: bool, random: nat, ghost i: nat) returns (ghost k: nat)
      requires Valid() && Sane(SettingOf(hq, random))
      requires if hq in queue then i < |queue| && queue[i] == hq else hq.Unlinked()
      modifies this, Members(queue)`prev, Members(queue)`next, hq`prev, hq`next, hq`times
      ensures Valid() && Members(queue) == Members(old(queue)) + {hq}
      ensures hq.times == Pushed(old(hq.times).(leaky := leak || old(hq.times).leaky),
          old(SettingOf(hq, random)), now, delay)
    {
      ghost var t, s := hq.times.(leaky := leak || hq.times.leaky), SettingOf(hq, random);
      Withdraw(hq, i);
      SetTimes(hq, hq.times.(leaky := leak || hq.times.leaky));
      k := Reinsert(hq, now, delay, random, t, s);
    }

    /** daemon.c:786-836: the head of the list, a queue with the earliest launch time, is launched and goes back into
      * the list.
      */
    method HqLaunch(now: int, random: nat) returns (hq: HostQ)
      requires Valid() && queue != [] && Sane(SettingOf(queue[0], random))
      modifies this, Members(queue)`prev, Members(queue)`next, {queue[0]}`times, {queue[0]}`launches
      ensures Valid() && hq == old(queue[0]) && Members(queue) == Members(old(queue))
      ensures forall q :: q in old(queue) ==> old(hq.times.next) <= old(q.times.next)
      ensures hq.times == Launched(old(hq.times), old(SettingOf(hq, random)), now)
    {
      hq := head;
      ghost var t, s := hq.times.(last := now), SettingOf(hq, random);
      assert forall q :: q in queue ==> hq.times.next <= q.times.next;
      Withdraw(hq, 0);
      SetTimes(hq, hq.times.(last := now));
      hq.launches := hq.launches + 1;
      ghost var k := Reinsert(hq, now, None, random, t, s);
    }

    /** A queue that is due, and one whose next wait starts over. */
    ghost function Due(now: int): set<HostQ>
      reads `queue, Members(queue)`times
    {
      set q | q in queue && q.times.next <= now
    }

    ghost function DueAfresh(now: int): set<HostQ>
      reads `queue, Members(queue)`times
    {
      set q | q in queue && q.times.next <= now && (q.times.wait == 0 || q.times.leaky)
    }

    /** The head, which is due, is launched: it is no longer due, or its next wait does not start over again. */
    method LaunchHead(now: int, later: int, random: nat)
      requires Valid() && queue != [] && Sane(SettingOf(queue[0], random)) && 0 < now <= later
      requires queue[0].times.next <= now
      modifies this, Members(queue)`prev, Members(queue)`next, {queue[0]}`times, {queue[0]}`launches
      ensures Valid() && Members(queue) == Members(old(queue))
      ensures |DueAfresh(now)| < |old(DueAfresh(now))|
          || (|DueAfresh(now)| == |old(DueAfresh(now))| && |Due(now)| < |old(Due(now))|)
    {
      ghost var due, afresh, m := Due(now), DueAfresh(now), Members(queue);
      ghost var t, s := queue[0].times, SettingOf(queue[0], random);
      var hq := HqLaunch(later, random);
      LaunchProgress(t, s, now, later);
      assert hq in m && m == Members(queue);
      assert forall q :: q in m <==> q in queue;
      assert Due(now) - {hq} == due - {hq} && DueAfresh(now) - {hq} == afresh - {hq};
      assert hq in due && hq !in DueAfresh(now);
      Shrinks(DueAfresh(now), afresh, hq);
      if hq !in Due(now) {
        Shrinks(Due(now), due, hq);
      }
    }

    /** daemon.c:1001-1058: due queues are launched, the earliest first, until none is left, the limit of running
      * queue runners is reached, or as many as may start in one second have started.  The clock never goes back.
      */
    method LaunchDue(now: int, launchLimit: nat, slowMax: nat, running: nat)
      returns (stop: Stop, runners: nat, ghost log: seq<(HostQ, int)>)
      requires Valid() && jailSeconds > 0 && now > 0 && forall q :: q in Members(queue) ==> 0 < q.minWait <= q.maxWait
      modifies this, Members(queue)`prev, Members(queue)`next, Members(queue)`times, Members(queue)`launches
      ensures Valid() && Members(queue) == Members(old(queue))
      ensures forall l :: l in log ==> l.0 in old(queue) && l.1 <= now
      ensures stop.Idle? ==> forall q :: q in queue ==> q.times.next > now
      ensures stop.Busy? ==> 0 < slowMax <= runners
      ensures launchLimit > 0 ==> |log| <= launchLimit && (stop.Limited? ==> |log| == launchLimit)
      ensures stop.Limited? ==> launchLimit > 0
      ensures runners == running + |log| && (slowMax > 0 && |log| > 0 ==> runners <= slowMax)
    {
      runners, log := running, [];
      var launched := 1;
      var limited := false;
      while head != null
        invariant Valid() && Members(queue) == Members(old(queue))
        invariant forall q :: q in Members(queue) ==> 0 < q.minWait <= q.maxWait
        invariant forall l :: l in log ==> l.0 in old(queue) && l.1 <= now
        invariant runners == running + |log| && launched == |log| + 1
        invariant launchLimit > 0 ==> |log| <= launchLimit && (limited <==> |log| == launchLimit)
        invariant (limited ==> launchLimit > 0) && (slowMax > 0 && |log| > 0 ==> runners <= slowMax)
        decreases |DueAfresh(now)|, |Due(now)|
      {
        if limited { return Limited, runners, log; }
        if head.times.next > now {
          assert forall q :: q in queue ==> head.times.next <= q.times.next;
          return Idle, runners, log;
        }
        if slowMax != 0 && runners >= slowMax { return Busy, runners, log; }
        var later: int :| later >= now;
        var random: nat :| true;
        log := log + [(head, head.times.next)];
        assert queue[0] in Members(queue);
        LaunchHead(now, later, random);
        var ok: bool := *;
        runners := runners + 1;
        if !ok { return Failed, runners, log; }
        Multiple(launched, launchLimit);
        limited := launchLimit > 0 && launched % launchLimit == 0;
        launched := launched + 1;
      }
      return Idle, runners, log;
    }
  }
}
