/** A run over all queues (`q_runner`, queue.c:289-548, and `_q_deliver`, queue.c:1045-1459): which message is
  * where, which Efiles are in the fast directory, and that no message is lost.  What a delivery attempt does to
  * recipients is in Delivery and Accounting.
  */
module QueueRun {
  import opened Spool
  import opened SpoolOps
  import opened SpoolCount
  import opened HostQueues
  import opened Lists
  import opened LetterCase
  import D = Delivery

  /** The ids of messages tell them apart. */
  ghost predicate Named(live: set<Message>, used: set<string>, held: Held) {
    && (forall m {:trigger m.env} :: m in live ==> m.env.id in used)
    && (forall m, n {:trigger m.env, n.env} :: m in live && n in live && m.env.id == n.env.id ==> m == n)
    && (forall id :: id in held.fast || id in held.local ==> exists m :: m in live && m.env.id == id)
    && held.local <= used && held.safe <= used
  }

  lemma NewIsNotHeld(live: set<Message>, used: set<string>, held: Held, id: string)
    requires Named(live, used, held) && id !in used
    ensures id !in held.fast && id !in held.local && id !in held.safe
  {}

  lemma {:induction false} Longer(ids: set<string>) returns (n: nat)
    ensures forall s :: s in ids ==> |s| < n
  {
    n := 0;
    if s :| s in ids {
      var k := Longer(ids - {s});
      n := if k > |s| then k else |s| + 1;
    }
  }

  /** There is always another id. */
  lemma Unused(ids: set<string>) returns (id: string)
    ensures id !in ids
  {
    var n := Longer(ids);
    id := seq(n, _ => 'a');
  }

  ghost function Ids(ms: seq<Message>): set<string> {
    set m | m in ms :: m.env.id
  }

  /** Nothing that is safe has been dropped. */
  ghost predicate Remain(before: set<Message>, after: set<Message>, safe: set<string>) {
    after <= before && forall m {:trigger m.env} :: m in before && m.env.id in safe ==> m in after
  }

  /** The message is settled, or nothing has happened to it; of the others nothing is given up but `own`. */
  ghost predicate Ends(before: Held, after: Held, id: string, gone: bool, own: set<string>) {
    && after.fate == (if gone then before.fate[id := Settled] else before.fate)
    && before.safe <= after.safe + own + if gone then {id} else {}
  }

  /** Only a message that is to be deleted meets its fate; it does if no call fails. */
  ghost predicate Judged(before: Held, after: Held, id: string, j: D.Judgement, clean: bool) {
    && after.Keeps(before) && (!j.deletes ==> after.Spares(before, {}))
    && (after.fate == before.fate || after.fate == before.fate[id := Settled])
    && (j.deletes && clean && id in before.safe ==> id in after.fate)
  }

  lemma EndsAsJudged(before: Held, mid: Held, after: Held, id: string, gone: bool, j: D.Judgement, clean: bool)
    requires Ends(before, mid, id, gone, {}) && after in {mid, mid.Away(id)}
    requires (gone ==> j.deletes) && (j.deletes && clean && id in before.safe ==> gone)
    ensures Judged(before, after, id, j, clean)
  {}

  class Runner {
    const disk: Disk
    const unexpanded: HostQueue
    const punt: HostQueue?
    const slowRunner: bool
    const jail: bool // simta_mail_jail: prisoners are not delivered
    ghost const start: Start
    var hosts: seq<HostQueue>
    var used: set<string>   // message ids
    ghost var queues: set<HostQueue>
    ghost var live: set<Message>
    ghost var held: Held // where the messages that the process knows of are, and what became of the others

    constructor (disk: Disk, punt: HostQueue?, slowRunner: bool, jail: bool)
      requires Sound(disk, Held({}, {}, {}, map[]), Start(disk.faults, |disk.trace|))
      requires punt != null ==> punt.Valid() && punt.msgs == [] && punt.punts
      ensures this.disk == disk && this.punt == punt && start == Start(disk.faults, |disk.trace|) && live == {}
      ensures Inv({})
    {
      this.disk, this.punt, this.slowRunner, this.jail := disk, punt, slowRunner, jail;
      start := Start(disk.faults, |disk.trace|);
      unexpanded := new HostQueue("", false, false, D.Unknown);
      hosts, used, live, held := [], {}, {}, Held({}, {}, {}, map[]);
      new;
      queues := {unexpanded} + if punt == null then {} else {punt};
    }

    /** Every host has one queue, whatever the letter case of its name. */
    ghost predicate Queues()
      reads `hosts, `queues
    {
      && Distinct(hosts) && (forall q :: q in hosts ==> q in queues && q != unexpanded && !q.punts && q.name != "")
      && (forall p, q :: p in hosts && q in hosts && Fold(p.name) == Fold(q.name) ==> p == q)
      && unexpanded in queues && !unexpanded.punts && unexpanded.name == ""
          && (punt != null ==> punt in queues && punt.punts)
      && (forall q :: q in queues ==> q in hosts || q == unexpanded || q == punt)
    }

    ghost function Envs(): set<Envelope>
      reads `live
    {
      set m | m in live :: m.env
    }

    /** Messages are only added as new objects. */
    twostate predicate Grown()
      reads `live
    {
      forall m :: m in live ==> m in old(live) || (fresh(m) && fresh(m.env))
    }

    twostate predicate GrownQueues()
      reads `queues
    {
      forall q :: q in queues ==> q in old(queues) || fresh(q)
    }

    /** Every message that is known waits in exactly one queue, the one it belongs to, except those in `hand`. */
    ghost predicate Tracked(hand: set<Message>)
      reads `queues, `live, queues, live`hq, live`punt
    {
      && (forall q, m :: q in queues && m in q.msgs ==> m in live)
      && (forall q :: q in queues ==> q.Valid())
      && (forall m {:trigger m.hq} :: m in live ==>
          if m.hq == null then m in hand else m !in hand && m.hq in queues && m in m.hq.msgs)
      && hand <= live
    }

    ghost predicate Placed()
      reads `live, `held, Envs()`dir, live`loaded, live`hq
    {
      forall m {:trigger m.env} :: m in live ==>
        && m.env.dir in {Fast, Slow, Local} && (m.env.dir == Fast <==> m.env.id in held.fast)
        && (m.env.dir == Local <==> m.env.id in held.local)
        && (m.env.dir == Fast ==> m.loaded) && (m.hq == unexpanded && m.loaded ==> m.env.dir == Fast)
    }

    ghost predicate Known(hand: set<Message>)
      reads `hosts, `queues, `live, `used, `held, queues, live`hq, live`punt, live`loaded, Envs()`dir
    {
      Queues() && Tracked(hand) && Placed() && Named(live, used, held)
    }

    /** The files of the messages are where the process believes them to be. */
    ghost predicate Filed()
      reads `live, `used, `held, disk, live`hq, live`loaded, Envs()`dir
    {
      Placed() && Named(live, used, held) && Sound(disk, held, start)
    }

    ghost predicate Inv(hand: set<Message>)
      reads this, disk, queues, live`hq, live`punt, live`loaded, Envs()`dir
    {
      Known(hand) && Sound(disk, held, start)
    }

    /** A message that waits is in the queue of the punt host, or in the one that has the name of its host; one without
      * a host is in the queue of those that are not expanded.
      */
    lemma WaitsForTheRightHost(m: Message, hand: set<Message>)
      requires Inv(hand) && m in live && m !in hand
      ensures m.hq != null && m in m.hq.msgs && (m.punt <==> m.hq == punt)
      ensures !m.punt ==> Fold(m.hq.name) == Fold(m.host) && (m.host == "" <==> m.hq == unexpanded)
    {
      assert m.hq.Valid();
    }

    method HostQLookup(host: string) returns (q: HostQueue?)
      ensures if q == null then forall p :: p in hosts ==> Fold(p.name) != Fold(host)
        else q in hosts && Fold(q.name) == Fold(host)
    {
      for i := 0 to |hosts|
        invariant forall j :: 0 <= j < i ==> Fold(hosts[j].name) != Fold(host)
      {
        if Fold(hosts[i].name) == Fold(host) { return hosts[i]; }
      }
      return null;
    }

    method AddHost(q: HostQueue, ghost hand: set<Message>)
      requires Inv(hand) && q !in queues && q.Valid() && q.msgs == [] && !q.punts && q.name != ""
      requires forall p :: p in hosts ==> Fold(p.name) != Fold(q.name)
      modifies `hosts, `queues
      ensures Inv(hand) && hosts == [q] + old(hosts) && queues == old(queues) + {q}
    {
      hosts, queues := [q] + hosts, queues + {q};
    }

    /** host_q_create_or_lookup (queue.c:83-167): a new host is looked up in the configuration. */
    method HostQCreateOrLookup(host: string, ghost hand: set<Message>) returns (q: HostQueue)
      requires Inv(hand)
      modifies `hosts, `queues
      ensures Inv(hand) && q in queues && !q.punts && Fold(q.name) == Fold(host)
      ensures if host == "" then q == unexpanded else q in hosts
      ensures if q in old(queues) then hosts == old(hosts) && queues == old(queues)
        else fresh(q) && q.msgs == [] && hosts == [q] + old(hosts) && queues == old(queues) + {q}
      ensures GrownQueues() && old(queues) <= queues
    {
      if host == "" { return unexpanded; }
      var found := HostQLookup(host);
      if found != null { return found; }
      var status :| status in {D.Unknown, D.Bitbucket, D.Local, D.Supressed};
      var noPunt: bool := *;
      q := new HostQueue(host, false, noPunt, status);
      AddHost(q, hand);
    }

    /** queue.c:204-226 */
    method Place(m: Message, q: HostQueue, ghost hand: set<Message>)
      requires Inv(hand) && m in hand && q in queues && q.Fits(m)
      requires q == unexpanded && m.loaded ==> m.env.dir == Fast
      modifies q`msgs, q`entries, q`jailed, m`hq
      ensures Inv(hand - {m}) && m.hq == q && forall x :: x in q.msgs <==> x in old(q.msgs) || x == m
    {
      ghost var k := q.Insert(m);
      InsertedMembers(old(q.msgs), k, m);
    }

    /** queue_envelope (queue.c:181-227): a message waits for the host it names, or for the punt host. */
    method QueueEnvelope(m: Message, ghost hand: set<Message>)
      requires Inv(hand) && (m.env.dir != Dead ==> m in hand) && m.hq == null
      requires m.punt ==> punt != null
      requires !m.punt && m.loaded ==> m.env.dir in {Fast, Dead}
      modifies `hosts, `queues, queues`msgs, queues`entries, queues`jailed, m`hq
      ensures Inv(hand - {m}) && (m.env.dir != Dead ==> m.hq != null)
      ensures m.hq != null ==> m.hq in queues && m in m.hq.msgs && (!m.punt ==> Fold(m.hq.name) == Fold(m.host))
      ensures m.env.dir == Dead || m.punt || m.host == "" ==> hosts == old(hosts) && queues == old(queues)
      ensures m.punt ==> m.hq in {punt, null}
      ensures !m.punt && m.host == "" ==> m.hq in {unexpanded, null}
      ensures forall q :: q in old(queues) && q != m.hq ==> q.msgs == old(q.msgs)
      ensures GrownQueues() && old(queues) <= queues
    {
      if m.env.dir == Dead { return; }
      if m.punt {
        Place(m, punt, hand);
      } else {
        QueueForHost(m, hand);
      }
    }

    method QueueForHost(m: Message, ghost hand: set<Message>)
      requires Inv(hand) && m in hand && m.hq == null && !m.punt && (m.loaded ==> m.env.dir == Fast)
      modifies `hosts, `queues, queues`msgs, queues`entries, queues`jailed, m`hq
      ensures Inv(hand - {m}) && m.hq != null && !m.hq.punts && m.hq in queues && m in m.hq.msgs && m.hq.Fits(m)
      ensures m.host == "" ==> m.hq == unexpanded && hosts == old(hosts) && queues == old(queues)
      ensures forall q :: q in old(queues) && q != m.hq ==> q.msgs == old(q.msgs)
      ensures GrownQueues() && old(queues) <= queues
    {
      var q := HostQCreateOrLookup(m.host, hand);
      Place(m, q, hand);
    }

    /** queue_remove_envelope (queue.c:230-251). */
    method Take(m: Message, ghost hand: set<Message>)
      requires Inv(hand) && m in live && m.hq != null
      modifies m.hq`msgs, m.hq`entries, m.hq`jailed, m`hq
      ensures Inv(hand + {m}) && m.hq == null
      ensures forall x :: x in old(m.hq).msgs <==> x in old(m.hq.msgs) && x != m
      ensures |old(m.hq).msgs| == |old(m.hq.msgs)| - 1
    {
      var q := m.hq;
      ghost var k :| 0 <= k < |q.msgs| && q.msgs[k] == m;
      RemovedMembers(q.msgs, k);
      q.Remove(m, k);
    }

    /** No message that is known has to do with the envelope of this one. */
    ghost predicate Absent(m: Message)
      reads `live, `held
    {
      && m.env.id !in held.fast && m.env.id !in held.local && m.env.id !in held.safe
      && m !in live && forall n :: n in live ==> n.env != m.env
    }

    /** The process knows of the message no longer. */
    ghost method Forget(m: Message, after: Held, hand: set<Message>)
      requires Known(hand) && m in hand && Sound(disk, after, start)
      requires after in {held.Away(m.env.id), held.Gone(m.env.id), held.Ended(m.env.id, Unread)}
      modifies `live, `held
      ensures Inv(hand - {m}) && live == old(live) - {m} && held == after
      ensures forall n :: n in live ==> n.env != m.env
    {
      live, held := live - {m}, after;
    }

    /** The files of a message go to the slow directory, and the process does not know it any more. */
    method MoveAway(m: Message)
      requires Filed() && m in live
      modifies disk`fs, disk`trace, disk`faults, disk`fastFiles, m.env`dir, m.env`efile, `live, `held
      ensures Filed() && live == old(live) - {m} && held == old(held).Away(m.env.id)
      ensures disk.faults >= old(disk.faults)
    {
      ghost var before := held;
      assert forall n :: n in live && n != m ==> n.env != m.env;
      held, live := held.Away(m.env.id), live - {m};
      if m.env.dir == Slow {
        assert before.Away(m.env.id) == before;
      } else {
        MoveOut(disk, m.env, before, start);
      }
    }

    /** env_move to the slow directory, then env_free (queue.c:487-489 and 1414-1420). */
    method Retire(m: Message, ghost hand: set<Message>)
      requires Inv(hand) && m in hand
      modifies disk`fs, disk`trace, disk`faults, disk`fastFiles, m.env`dir, m.env`efile, `live, `held
      ensures Inv(hand - {m}) && live == old(live) - {m} && held == old(held).Away(m.env.id)
      ensures disk.faults >= old(disk.faults)
    {
      MoveAway(m);
    }

    /** Without faults a message that is safe has its Efile, so that it can be removed. */
    method Unlink(m: Message) returns (ok: bool)
      requires Filed() && m in live
      modifies disk`fs, disk`trace, disk`faults, disk`fastFiles, m.env`efile
      ensures Sound(disk, held.Gone(m.env.id), start) && (!ok ==> Sound(disk, held, start))
      ensures disk.faults == start.faults && m.env.id in held.safe ==> ok
      ensures Only(old(disk.fs), disk.fs, m.env.id) && disk.faults >= old(disk.faults)
    {
      ok := Discard(disk, m.env, held, start);
    }

    /** env_unlink (envelope.c:1218-1243); the message is freed if that succeeds. */
    method Delete(m: Message, ghost hand: set<Message>) returns (ok: bool)
      requires Inv(hand) && m in hand
      modifies disk`fs, disk`trace, disk`faults, disk`fastFiles, m.env`efile, `live, `held
      ensures Inv(if ok then hand - {m} else hand) && live == if ok then old(live) - {m} else old(live)
      ensures held == if ok then old(held).Gone(m.env.id) else old(held)
      ensures ok ==> Absent(m)
      ensures disk.faults == start.faults && m.env.id in old(held.safe) ==> ok
      ensures Only(old(disk.fs), disk.fs, m.env.id) && disk.faults >= old(disk.faults)
    {
      ok := Unlink(m);
      if ok {
        Forget(m, held.Gone(m.env.id), hand);
      }
    }

    /** env_unlink and env_free, whatever comes of it (queue.c:1391-1400, expand.c:704-713). */
    method Erase(m: Message, ghost hand: set<Message>)
      requires Inv(hand) && m in hand
      modifies disk`fs, disk`trace, disk`faults, disk`fastFiles, m.env`efile, `live, `held
      ensures Inv(hand - {m}) && live == old(live) - {m} && held == old(held).Gone(m.env.id) && Absent(m)
      ensures Only(old(disk.fs), disk.fs, m.env.id) && disk.faults >= old(disk.faults)
    {
      var _ := Unlink(m);
      Forget(m, held.Gone(m.env.id), hand);
    }

    /** What became of a message that is not known any more. */
    ghost method Record(id: string, f: Fate, hand: set<Message>)
      requires Inv(hand)
      modifies `held
      ensures Inv(hand) && held == old(held).(fate := old(held.fate)[id := f])
    {
      held := held.(fate := held.fate[id := f]);
    }

    /** A new id (envelope.c:178-192): the time and the process number make it new, if the clock can be read. */
    method NewId() returns (ok: bool, id: string)
      requires Filed()
      modifies `used, disk`faults
      ensures Filed() && old(used) <= used && disk.Faulty(old(disk.faults), ok)
      ensures ok ==> Vacant(disk.fs, id) && id in used && id !in old(used) && id !in held.local
      ensures ok ==> forall m :: m in live ==> m.env.id != id
    {
      ok := disk.Other();
      if !ok { return false, ""; }
      ghost var w := Unused(used + set n | n in disk.fs :: n.id);
      assert w !in used && forall n :: n in disk.fs ==> n.id != w;
      id :| id !in used && forall n :: n in disk.fs ==> n.id != id;
      used := used + {id};
    }

    /** A message that is not in any queue yet, and has no files yet. */
    ghost predicate New(m: Message)
      reads m, m.env, `used, `live
    {
      m !in live && m.hq == null && m.loaded && !m.punt && m.env.dir in {Fast, Dead} && m.env.id in used
      && forall n :: n in live ==> n.env.id != m.env.id
    }

    /** The message has its files now. */
    ghost method Know(m: Message)
      requires Placed() && Named(live, used, held) && New(m) && m.env.dir == Fast
      requires Sound(disk, held.With(m.env.id), start)
      modifies `live, `held
      ensures Filed() && live == old(live) + {m} && held == old(held).With(m.env.id)
    {
      live, held := live + {m}, held.With(m.env.id);
    }

    /** env_create (envelope.c:163-221): the new message is one level below the one it comes from, and is a prisoner if
      * that is one.
      */
    method Create(host: string, dead: bool, parent: Message) returns (m: Message?)
      requires Filed()
      modifies `used, disk`faults
      ensures Filed() && old(used) <= used && disk.Faulty(old(disk.faults), m != null)
      ensures m != null ==> fresh(m) && fresh(m.env) && New(m) && m.host == host && Vacant(disk.fs, m.env.id)
      ensures m != null ==> m.env.id !in held.local && m.env.id !in old(used)
      ensures m != null ==> m.env.dir == (if dead then Dead else Fast)
      ensures m != null ==> m.env.level == parent.env.level + 1 && m.prisoner == parent.prisoner
    {
      var ok, id := NewId();
      if !ok { return null; }
      var etime: int := *;
      var env := new Envelope(id, if dead then Dead else Fast, parent.env.level + 1);
      m := new Message(env, host, parent.prisoner, etime);
      m.loaded := true;
    }

    /** A bounce that has been written; one in the dead directory is not known to the queues. */
    twostate predicate Written(new b: Message)
      reads `used, `live, `held, b, b.env, disk
    {
      && fresh(b) && fresh(b.env) && b.hq == null && b.host == "" && !b.punt && b.loaded && b.env.dir in {Fast, Dead}
      && b.env.id !in old(used) && b.env.E() in disk.fs
      && live == old(live) + (if b.env.dir == Fast then {b} else {}) && b !in old(live)
      && held == if b.env.dir == Fast then old(held).With(b.env.id) else old(held)
    }

    /** The files of a bounce; one in the dead directory is not known to the queues. */
    method FileBounce(m: Message) returns (b: Message?)
      requires Filed()
      modifies disk`fs, disk`trace, disk`faults, disk`fastFiles, `used, `live, `held
      ensures Filed() && old(used) <= used && disk.Faulty(old(disk.faults), b != null)
      ensures if b == null then live == old(live) && held == old(held)
        else Written(b) && b.env.level == m.env.level + 1 && b.prisoner == m.prisoner
      ensures forall n :: n in old(disk.fs) ==> n in disk.fs
    {
      var postmaster: bool := *;
      b := Create("", postmaster, m);
      if b == null { return; }
      var ok := WriteBounce(disk, b.env, held, start);
      if !ok { return null; }
      if b.env.dir == Fast {
        Know(b);
      }
    }

    /** bounce_snet (bounce.c:324-526): a message about `m`, in the fast or in the dead directory. */
    method BounceSnet(m: Message, ghost hand: set<Message>) returns (b: Message?)
      requires Inv(hand)
      modifies disk`fs, disk`trace, disk`faults, disk`fastFiles, `used, `live, `held
      ensures if b == null then live == old(live) && held == old(held)
        else Written(b) && b.env.level == m.env.level + 1 && b.prisoner == m.prisoner
      ensures Inv(if b != null && b.env.dir == Fast then hand + {b} else hand)
      ensures disk.Faulty(old(disk.faults), b != null)
      ensures forall n :: n in old(disk.fs) ==> n in disk.fs
    {
      b := FileBounce(m);
    }

    /** env_read before a delivery (queue.c:1095-1105); a message of another process, or a damaged one, is dropped.  Its
      * files stay.
      */
    method Load(m: Message, readable: bool, ghost hand: set<Message>) returns (ok: bool)
      requires Inv(hand) && m in hand
      modifies m`loaded, `live, `held
      ensures ok <==> old(m.loaded) || readable
      ensures ok ==> m.loaded && Inv(hand) && live == old(live) && held == old(held)
      ensures !ok ==> Inv(hand - {m}) && live == old(live) - {m}
      ensures !ok ==> held == if m.env.dir == Local then old(held).Ended(m.env.id, Unread) else old(held)
    {
      if m.loaded { return true; }
      ok := readable;
      if ok {
        m.loaded := true;
      } else {
        UnheldIsSound(disk, held, m.env.id, start);
        if m.env.dir == Local {
          Forget(m, held.Ended(m.env.id, Unread), hand);
        } else {
          assert held.Away(m.env.id) == held;
          Forget(m, held, hand);
        }
      }
    }

    /** What an attempt leaves the host in, and what is to become of the message (see Delivery.Deliver.Dispatch). */
    method TryHost(m: Message, q: HostQueue, tooOld: bool, ghost hand: set<Message>) returns (j: D.Judgement)
      requires Inv(hand) && q in queues && q.status !in {D.Unknown, D.PuntDown}
      modifies q`status, q`noPunt
      ensures Inv(hand) && q.status != D.Unknown && (q.status == D.PuntDown ==> q.punts)
      ensures D.Leaves(old(q.status), jail && m.prisoner, q.status)
      ensures D.Allows(old(q.status), jail && m.prisoner, tooOld, j)
    {
      var p := jail && m.prisoner;
      assert D.Leaves(q.status, p, q.status);
      assert D.Allows(q.status, p, tooOld, D.Judgement(q.status == D.Bounce || (tooOld && q.status != D.Bitbucket),
                                                       q.status in {D.Bounce, D.Bitbucket} || tooOld, false));
      j :| D.Allows(q.status, p, tooOld, j);
      var status :| D.Leaves(q.status, p, status);
      assert q.Valid() && D.Leaves(q.status, p, status);
      q.noPunt, q.status := *, status;
    }

    /** env_truncate_and_unlink (envelope.c:1177-1193): an Efile that is locked is emptied first, and then it does not
      * matter whether it can be removed.
      */
    method TruncateAndUnlink(m: Message, locked: bool, ghost hand: set<Message>) returns (ok: bool)
      requires Inv(hand) && m in hand
      modifies disk`fs, disk`trace, disk`faults, disk`fastFiles, m.env`efile, `live, `held
      ensures Inv(if ok then hand - {m} else hand) && live == if ok then old(live) - {m} else old(live)
      ensures held == if ok then old(held).Gone(m.env.id) else old(held)
      ensures ok ==> Absent(m)
      ensures disk.faults == start.faults && m.env.id in old(held.safe) ==> ok
      ensures Only(old(disk.fs), disk.fs, m.env.id) && disk.faults >= old(disk.faults)
    {
      if locked {
        var truncated := disk.Other();
        if truncated {
          Erase(m, hand);
          return true;
        }
      }
      ok := Delete(m, hand);
    }

    /** A bounce that waits for its fate. */
    ghost predicate Drafted(b: Message, hand: set<Message>)
      reads `live, b, b.env
    {
      && (if b.env.dir == Fast then b in hand else b !in live) && b.env.dir in {Fast, Dead}
      && b.hq == null && b.host == "" && !b.punt && b.loaded
    }

    /** queue.c:1374-1377 */
    method QueueBounce(b: Message, ghost hand: set<Message>)
      requires Inv(hand) && Drafted(b, hand)
      modifies `hosts, `queues, queues`msgs, queues`entries, queues`jailed, b`hq
      ensures Inv(hand - {b}) && hosts == old(hosts) && queues == old(queues)
      ensures forall q :: q in queues && q != unexpanded ==> q.msgs == old(q.msgs)
    {
      QueueEnvelope(b, hand);
    }

    /** The bounce is taken back (queue.c:1391-1403). */
    method UnwindBounce(b: Message, ghost hand: set<Message>)
      requires Inv(hand) && (if b.env.dir == Fast then b in hand else b !in live) && b.env.dir in {Fast, Dead}
      modifies disk`fs, disk`trace, disk`faults, disk`fastFiles, b.env`efile, `live, `held
      ensures Inv(hand - {b}) && live <= old(live) && b !in live && disk.faults >= old(disk.faults)
      ensures held.Spares(old(held), {b.env.id})
    {
      if b.env.dir == Fast {
        Erase(b, hand);
      } else {
        DiscardDead(disk, b.env, held, start);
        assert hand - {b} == hand;
      }
    }

    /** A bounce is in the spool, and unless it is in the dead directory, it is to be delivered. */
    ghost predicate Sent(b: Message)
      reads `live, disk`fs, b.env
    {
      b.env.E() in disk.fs && (b.env.dir == Fast ==> b in live)
    }

    /** The bounce is queued, or taken back. */
    method SettleBounce(b: Message, ok: bool, ghost hand: set<Message>, ghost rest: set<Message>)
      requires Inv(hand) && Drafted(b, hand) && rest == hand - {b} && b.env.E() in disk.fs
      modifies disk`fs, disk`trace, disk`faults, disk`fastFiles, b.env`efile, `live, `held
      modifies `hosts, `queues, queues`msgs, queues`entries, queues`jailed, b`hq
      ensures Inv(rest) && hosts == old(hosts) && queues == old(queues)
      ensures forall q :: q in queues && q != unexpanded ==> q.msgs == old(q.msgs)
      ensures if ok then Sent(b) && live == old(live) && held == old(held) else b !in live
      ensures live <= old(live) && disk.faults >= old(disk.faults) && held.Spares(old(held), {b.env.id})
    {
      if ok {
        QueueBounce(b, hand);
      } else {
        UnwindBounce(b, hand);
      }
    }

    /** queue.c:1286-1362: delete, rewrite or keep the message; `ok` says that nothing went wrong. */
    method Dispose(m: Message, j: D.Judgement, locked: bool, ghost hand: set<Message>) returns (ok: bool, gone: bool)
      requires Inv(hand) && m in hand && m.env.D() in disk.fs
      modifies disk`fs, disk`trace, disk`faults, disk`fastFiles, m.env`efile, `live, `held
      ensures Inv(if gone then hand - {m} else hand) && live == if gone then old(live) - {m} else old(live)
      ensures held == if gone then old(held).Ended(m.env.id, Settled) else old(held)
      ensures gone ==> ok && j.deletes && Absent(m)
      ensures j.deletes && disk.faults == start.faults && m.env.id in old(held.safe) ==> gone
      ensures Only(old(disk.fs), disk.fs, m.env.id) && disk.faults >= old(disk.faults)
    {
      if j.deletes {
        gone := TruncateAndUnlink(m, locked, hand);
        if gone {
          Record(m.env.id, Settled, hand - {m});
        }
        return gone, gone;
      }
      if j.rewrites {
        ok := Replace(disk, m.env, held, start);
        return ok, false;
      }
      return true, false;
    }

    method SettleWithBounce(m: Message, j: D.Judgement, locked: bool, b: Message, ghost both: set<Message>)
      returns (ok: bool, gone: bool)
      requires Inv(both) && both == (if b.env.dir == Fast then {m} + {b} else {m}) && Drafted(b, both)
      requires m in live && m.env.D() in disk.fs
      requires b.env.id != m.env.id && b.env.E() in disk.fs
      modifies disk`fs, disk`trace, disk`faults, disk`fastFiles, m.env`efile, b.env`efile, `live, `held
      modifies `hosts, `queues, queues`msgs, queues`entries, queues`jailed, b`hq
      ensures Inv(if gone then {} else {m}) && hosts == old(hosts) && queues == old(queues)
      ensures live <= old(live) && if ok then Sent(b) else b !in live
      ensures forall q :: q in queues && q != unexpanded ==> q.msgs == old(q.msgs)
      ensures gone ==> ok && j.deletes && Absent(m)
      ensures j.deletes && disk.faults == start.faults && m.env.id in old(held.safe) ==> gone
      ensures Ends(old(held), held, m.env.id, gone, {b.env.id}) && disk.faults >= old(disk.faults)
    {
      ghost var e := b.env.E();
      ok, gone := Dispose(m, j, locked, both);
      assert e in disk.fs;
      ghost var hand, rest := if gone then both - {m} else both, if gone then {} else {m};
      assert hand - {b} == rest;
      SettleBounce(b, ok, hand, rest);
    }

    /** queue.c:1249-1377: bounce, delete or rewrite, each of which can fail (see Accounting.Settle).  The message goes
      * only if it is to be deleted, and then the bounce `b` is there; it does go if no call fails.
      */
    method Settle(m: Message, j: D.Judgement, locked: bool) returns (gone: bool, ghost ok: bool, ghost b: Message?)
      requires Inv({m}) && m.env.D() in disk.fs
      modifies disk`fs, disk`trace, disk`faults, disk`fastFiles, m.env`efile, `live, `held, `used
      modifies `hosts, `queues, queues`msgs, queues`entries, queues`jailed
      ensures Inv(if gone then {} else {m}) && hosts == old(hosts) && queues == old(queues) && Grown()
      ensures forall q :: q in queues && q != unexpanded ==> q.msgs == old(q.msgs)
      ensures gone ==> ok && j.deletes
      ensures j.deletes && disk.faults == start.faults && m.env.id in old(held.safe) ==> gone
      ensures ok && j.bounces ==> b != null && b !in old(live) && Sent(b)
      ensures !ok ==> b !in live
      ensures Ends(old(held), held, m.env.id, gone, {})
    {
      if j.bounces {
        gone, ok, b := BounceAndSettle(m, j, locked);
      } else {
        b := null;
        ok, gone := Dispose(m, j, locked, {m});
        assert {m} - {m} == {};
      }
    }

    method BounceAndSettle(m: Message, j: D.Judgement, locked: bool)
      returns (gone: bool, ok: bool, b: Message?)
      requires Inv({m}) && m.env.D() in disk.fs
      modifies disk`fs, disk`trace, disk`faults, disk`fastFiles, m.env`efile, `live, `held, `used
      modifies `hosts, `queues, queues`msgs, queues`entries, queues`jailed
      ensures Inv(if gone then {} else {m}) && hosts == old(hosts) && queues == old(queues) && Grown()
      ensures forall q :: q in queues && q != unexpanded ==> q.msgs == old(q.msgs)
      ensures gone ==> ok && j.deletes && Absent(m)
      ensures j.deletes && disk.faults == start.faults && m.env.id in old(held.safe) ==> gone
      ensures if ok then b != null && b !in old(live) && Sent(b) else b !in live
      ensures Ends(old(held), held, m.env.id, gone, {}) && disk.faults >= old(disk.faults)
    {
      b := BounceSnet(m, {m});
      if b == null { return false, false, b; }
      ok, gone := SettleWithBounce(m, j, locked, b, if b.env.dir == Fast then {m} + {b} else {m});
    }

    /** queue.c:1404-1420: what could not be delivered waits for the punt host, or goes to the slow directory. */
    method Requeue(m: Message, q: HostQueue)
      requires Inv({m}) && q in queues
      modifies disk`fs, disk`trace, disk`faults, disk`fastFiles, m.env`dir, m.env`efile, m`punt, `live, `held
      modifies `hosts, `queues, queues`msgs, queues`entries, queues`jailed, m`hq
      ensures Inv({}) && hosts == old(hosts) && queues == old(queues)
      ensures forall p :: p in queues && (p == q || !p.punts) ==> p.msgs == old(p.msgs)
      ensures if punt != null && q != punt && !q.noPunt then m.hq == punt && live == old(live) && held == old(held)
        else live == old(live) - {m} && held == old(held).Away(m.env.id)
      ensures disk.faults >= old(disk.faults)
    {
      if punt != null && q != punt && !q.noPunt {
        QueueForPunt(m);
      } else {
        assert {m} - {m} == {};
        Retire(m, {m});
      }
    }

    /** The message waits for the punt host from now on. */
    method QueueForPunt(m: Message)
      requires Inv({m}) && punt != null
      modifies m`punt, `hosts, `queues, queues`msgs, queues`entries, queues`jailed, m`hq
      ensures Inv({}) && hosts == old(hosts) && queues == old(queues) && m.hq == punt
      ensures forall p :: p in queues && p != punt ==> p.msgs == old(p.msgs)
    {
      m.punt := true;
      QueueEnvelope(m, {m});
      assert {m} - {m} == {};
    }

    method Handle(m: Message, q: HostQueue, j: D.Judgement, locked: bool)
      requires Inv({m}) && q in queues && q != unexpanded && m.env.D() in disk.fs
      modifies disk`fs, disk`trace, disk`faults, disk`fastFiles, m.env`dir, m.env`efile, m`punt, `live, `held, `used
      modifies `hosts, `queues, queues`msgs, queues`entries, queues`jailed, m`hq
      ensures Inv({}) && hosts == old(hosts) && queues == old(queues) && Grown()
      ensures forall p :: p in queues && p != unexpanded && (p == q || !p.punts) ==> p.msgs == old(p.msgs)
      ensures Judged(old(held), held, m.env.id, j, disk.faults == start.faults)
      ensures (!j.deletes ==> if punt != null && q != punt && !q.noPunt then m.hq == punt else m !in live)
    {
      var gone, _, _ := Settle(m, j, locked);
      ghost var mid := held;
      if !gone {
        Requeue(m, q);
      }
      EndsAsJudged(old(held), mid, held, m.env.id, gone, j, disk.faults == start.faults);
    }

    /** queue.c:1135-1425, once the Dfile is open. */
    method Attempt(m: Message, q: HostQueue, locked: bool, tooOld: bool) returns (stop: bool, ghost j: D.Judgement)
      requires Inv({m}) && q in queues && q != unexpanded && q.status !in {D.Unknown, D.PuntDown}
      requires m.env.D() in disk.fs
      modifies disk`fs, disk`trace, disk`faults, disk`fastFiles, m.env`dir, m.env`efile, m`punt, `live, `held, `used
      modifies `hosts, `queues, queues`msgs, queues`entries, queues`jailed, m`hq, q`status, q`noPunt
      ensures Inv({}) && hosts == old(hosts) && queues == old(queues) && Grown()
      ensures forall p :: p in queues && p != unexpanded && !p.punts ==> p.msgs == old(p.msgs)
      ensures if stop then q.status == D.PuntDown else q.msgs == old(q.msgs) && q.status !in {D.Unknown, D.PuntDown}
      ensures D.Allows(old(q.status), jail && m.prisoner, tooOld, j)
      ensures if stop then m.hq == punt && held == old(held)
          else Judged(old(held), held, m.env.id, j, disk.faults == start.faults)
    {
      var verdict := TryHost(m, q, tooOld, {m});
      j, stop := verdict, q.status == D.PuntDown;
      if stop {
        QueueForPunt(m); // queue.c:1163-1174: the punt host failed
      } else {
        Handle(m, q, verdict, locked);
      }
    }

    /** queue.c:1117-1425; `j` is what is done with a message whose Dfile can be read. */
    method Deliver(m: Message, q: HostQueue, locked: bool, readable: bool, tooOld: bool)
      returns (stop: bool, ghost j: D.Judgement)
      requires Inv({m}) && q in queues && q != unexpanded && q.status !in {D.Unknown, D.PuntDown}
      modifies disk`fs, disk`trace, disk`faults, disk`fastFiles, m.env`dir, m.env`efile, m`punt, `live, `held, `used
      modifies `hosts, `queues, queues`msgs, queues`entries, queues`jailed, m`hq, q`status, q`noPunt
      ensures Inv({}) && hosts == old(hosts) && queues == old(queues) && Grown()
      ensures forall p :: p in queues && p != unexpanded && !p.punts ==> p.msgs == old(p.msgs)
      ensures if stop then q.status == D.PuntDown else q.msgs == old(q.msgs) && q.status !in {D.Unknown, D.PuntDown}
      ensures if readable && old(m.env.D()) in old(disk.fs) then D.Allows(old(q.status), jail && m.prisoner, tooOld, j)
        else j == D.Judgement(false, false, false)
      ensures stop ==> m.hq == punt && held == old(held)
      ensures !stop ==> Judged(old(held), held, m.env.id, j, disk.faults == start.faults)
      ensures !stop && !j.deletes ==> held.fate == old(held.fate) && old(held.safe) <= held.safe
      ensures !stop && j.deletes && disk.faults == start.faults && m.env.id in old(held.safe) ==> m.env.id in held.fate
    {
      if readable && m.env.D() in disk.fs {
        stop, j := Attempt(m, q, locked, tooOld);
      } else {
        j := D.Judgement(false, false, false);
        Requeue(m, q);
        stop := false;
      }
    }

    method TakeFirst(q: HostQueue) returns (m: Message)
      requires Inv({}) && q in queues && q.msgs != []
      modifies q`msgs, q`entries, q`jailed, {q.msgs[0]}`hq
      ensures Inv({m}) && m == old(q.msgs[0]) && |q.msgs| == |old(q.msgs)| - 1
    {
      m := q.msgs[0];
      Take(m, {});
      assert {} + {m} == {m};
    }

    /** queue.c:1088-1425: the first message of the queue.  Only a punt host can stop the delivery. */
    method DeliverNext(q: HostQueue) returns (stop: bool)
      requires Inv({}) && q in queues && q != unexpanded && q.msgs != [] && q.status !in {D.Unknown, D.PuntDown}
      modifies disk`fs, disk`trace, disk`faults, disk`fastFiles, Envs()`dir, Envs()`efile, `live, `held, `used
      modifies live`hq, live`loaded, live`punt, q`status, q`noPunt
      modifies `hosts, `queues, queues`msgs, queues`entries, queues`jailed
      ensures Inv({}) && hosts == old(hosts) && queues == old(queues) && Grown() && held.Keeps(old(held))
      ensures forall p :: p in queues && p != q && p != unexpanded && !p.punts ==> p.msgs == old(p.msgs)
      ensures if stop then q.status == D.PuntDown else |q.msgs| < |old(q.msgs)| && q.status !in {D.Unknown, D.PuntDown}
    {
      var m := TakeFirst(q);
      stop := DeliverTaken(m, q);
    }

    method DeliverTaken(m: Message, q: HostQueue) returns (stop: bool)
      requires Inv({m}) && q in queues && q != unexpanded && q.status !in {D.Unknown, D.PuntDown}
      modifies disk`fs, disk`trace, disk`faults, disk`fastFiles, m.env`dir, m.env`efile, m`punt, `live, `held, `used
      modifies `hosts, `queues, queues`msgs, queues`entries, queues`jailed, m`hq, m`loaded, q`status, q`noPunt
      ensures Inv({}) && hosts == old(hosts) && queues == old(queues) && Grown() && held.Keeps(old(held))
      ensures forall p :: p in queues && p != unexpanded && !p.punts ==> p.msgs == old(p.msgs)
      ensures if stop then q.status == D.PuntDown else q.msgs == old(q.msgs) && q.status !in {D.Unknown, D.PuntDown}
    {
      var locked := !m.loaded;
      var intact, readable, tooOld: bool := *, *, *;
      var ok := Load(m, intact, {m});
      if ok {
        ghost var j;
        stop, j := Deliver(m, q, locked, readable, tooOld);
      } else {
        assert {m} - {m} == {};
        stop := false;
      }
    }

    /** _q_deliver (queue.c:1045-1459): a queue is empty afterwards, unless the punt host is down. */
    method QDeliver(q: HostQueue)
      requires Inv({}) && q in queues && q != unexpanded
      modifies disk`fs, disk`trace, disk`faults, disk`fastFiles, Envs()`dir, Envs()`efile, `live, `held, `used
      modifies live`hq, live`loaded, live`punt, q`status, q`noPunt
      modifies `hosts, `queues, queues`msgs, queues`entries, queues`jailed
      ensures Inv({}) && hosts == old(hosts) && queues == old(queues) && Grown() && held.Keeps(old(held))
      ensures forall p :: p in queues && p != q && p != unexpanded && !p.punts ==> p.msgs == old(p.msgs)
      ensures q.msgs == [] || q.status == D.PuntDown
    {
      Resolve(q);
      while q.msgs != []
        invariant Inv({}) && hosts == old(hosts) && queues == old(queues) && Grown() && held.Keeps(old(held))
        invariant forall p :: p in queues && p != q && p != unexpanded && !p.punts ==> p.msgs == old(p.msgs)
        invariant q.status !in {D.Unknown, D.PuntDown}
        decreases |q.msgs|
      {
        var stop := DeliverNext(q);
        if stop { return; }
      }
    }

    /** queue.c:1067-1085: whether the host is local is found out once; the punt host always gets another try. */
    method Resolve(q: HostQueue)
      requires Inv({}) && q in queues
      modifies q`status
      ensures Inv({}) && q.status !in {D.Unknown, D.PuntDown}
      ensures q.status == old(q.status) || (old(q.status) == D.Unknown && q.status in {D.Mx, D.Local, D.Down})
        || (old(q.status) == D.PuntDown && q.status == D.Punt)
    {
      if q.status == D.Unknown {
        var status :| status in {D.Mx, D.Local, D.Down};
        q.status := status;
      }
      if q.status == D.PuntDown {
        q.status := D.Punt;
      }
    }

    /** The host queues that still have messages are among these. */
    ghost predicate Pending(qs: seq<HostQueue>)
      reads `hosts, hosts`msgs
    {
      forall q :: q in hosts ==> q.msgs == [] || q in qs
    }

    /** Longest queues first. */
    ghost predicate Longest(qs: seq<HostQueue>)
      reads qs`msgs
    {
      forall i, j :: 0 <= i < j < |qs| ==> |qs[i].msgs| >= |qs[j].msgs|
    }

    /** queue.c:355-379: in front of the first queue that is not longer. */
    method TurnOf(q: HostQueue, turn: seq<HostQueue>) returns (k: nat)
      requires q.entries == |q.msgs| && forall p :: p in turn ==> p.entries == |p.msgs|
      ensures k <= |turn| && (forall i :: 0 <= i < k ==> |q.msgs| < |turn[i].msgs|)
      ensures k < |turn| ==> |turn[k].msgs| <= |q.msgs|
    {
      k := 0;
      while k < |turn| && q.entries < turn[k].entries
        invariant k <= |turn| && forall i :: 0 <= i < k ==> |q.msgs| < |turn[i].msgs|
      {
        k := k + 1;
      }
    }

    lemma StillLongest(turn: seq<HostQueue>, k: nat, q: HostQueue)
      requires Longest(turn) && k <= |turn| && (forall i :: 0 <= i < k ==> |q.msgs| < |turn[i].msgs|)
      requires k < |turn| ==> |turn[k].msgs| <= |q.msgs|
      ensures Longest(Inserted(turn, k, q))
    {}

    method TakeTurn(q: HostQueue, turn: seq<HostQueue>, ghost rest: seq<HostQueue>) returns (r: seq<HostQueue>)
      requires Inv({}) && q in hosts && Pending(turn + [q] + rest) && Longest(turn)
      requires forall p :: p in turn ==> p in hosts
      ensures Pending(r + rest) && Longest(r) && forall p :: p in r ==> p == q || p in turn
    {
      assert forall p :: p in hosts ==> p.Valid();
      var k := TurnOf(q, turn);
      StillLongest(turn, k, q);
      InsertedMembers(turn, k, q);
      r := Inserted(turn, k, q);
    }

    /** The mail of a host that is not tried is dealt with at once (queue.c:381-385). */
    method PassOver(q: HostQueue, ghost turn: seq<HostQueue>, ghost rest: seq<HostQueue>)
      requires Inv({}) && q in hosts && Pending(turn + [q] + rest) && Longest(turn)
      requires q !in turn && forall p :: p in turn ==> p in hosts
      modifies disk`fs, disk`trace, disk`faults, disk`fastFiles, Envs()`dir, Envs()`efile, `live, `held, `used
      modifies live`hq, live`loaded, live`punt, q`status, q`noPunt
      modifies `hosts, `queues, queues`msgs, queues`entries, queues`jailed
      ensures Inv({}) && hosts == old(hosts) && queues == old(queues) && Grown() && held.Keeps(old(held))
      ensures Pending(turn + rest) && Longest(turn)
    {
      QDeliver(q);
    }

    /** queue.c:329-391: a queue that is to be tried waits for its turn, longest queues first; a queue that will not be
      * tried is dealt with at once.  No other status can occur (queue.c:387-389).
      */
    method Schedule(q: HostQueue, turn: seq<HostQueue>, ghost rest: seq<HostQueue>) returns (r: seq<HostQueue>)
      requires Inv({}) && q in hosts && Pending(turn + [q] + rest) && Longest(turn)
      requires q !in turn && forall p :: p in turn ==> p in hosts
      modifies disk`fs, disk`trace, disk`faults, disk`fastFiles, Envs()`dir, Envs()`efile, `live, `held, `used
      modifies live`hq, live`loaded, live`punt, q`status, q`noPunt
      modifies `hosts, `queues, queues`msgs, queues`entries, queues`jailed
      ensures Inv({}) && hosts == old(hosts) && queues == old(queues) && Grown() && held.Keeps(old(held))
      ensures Pending(r + rest) && Longest(r) && forall p :: p in r ==> p == q || p in turn
    {
      r := turn;
      if q.msgs == [] { return; }
      match q.status {
        case Unknown | Local | Mx | Bitbucket =>
          r := TakeTurn(q, turn, rest);
        case Supressed | Down | Bounce =>
          PassOver(q, turn, rest);
        case _ =>
          assert false;
      }
    }

    /** queue.c:325-398 */
    method RunHosts()
      requires Inv({})
      modifies disk`fs, disk`trace, disk`faults, disk`fastFiles, Envs()`dir, Envs()`efile, `live, `held, `used
      modifies live`hq, live`loaded, live`punt, queues`status, queues`noPunt
      modifies `hosts, `queues, queues`msgs, queues`entries, queues`jailed
      ensures Inv({}) && hosts == old(hosts) && queues == old(queues) && Grown() && Pending([]) && held.Keeps(old(held))
    {
      var turn := [];
      for i := 0 to |hosts|
        invariant Inv({}) && hosts == old(hosts) && queues == old(queues) && Grown() && held.Keeps(old(held))
        invariant Pending(turn + hosts[i..]) && Longest(turn) && forall p :: p in turn ==> p in hosts[..i]
      {
        assert hosts[i..] == [hosts[i]] + hosts[i + 1..];
        turn := Schedule(hosts[i], turn, hosts[i + 1..]);
      }
      RunTurn(turn);
    }

    method RunTurn(turn: seq<HostQueue>)
      requires Inv({}) && Pending(turn) && Longest(turn) && forall p :: p in turn ==> p in hosts
      modifies disk`fs, disk`trace, disk`faults, disk`fastFiles, Envs()`dir, Envs()`efile, `live, `held, `used
      modifies live`hq, live`loaded, live`punt, queues`status, queues`noPunt
      modifies `hosts, `queues, queues`msgs, queues`entries, queues`jailed
      ensures Inv({}) && hosts == old(hosts) && queues == old(queues) && Grown() && Pending([]) && held.Keeps(old(held))
    {
      var rest := turn;
      while rest != []
        invariant Inv({}) && hosts == old(hosts) && queues == old(queues) && Grown() && Pending(rest)
        invariant held.Keeps(old(held)) && forall p :: p in rest ==> p in hosts
      {
        assert rest == [rest[0]] + rest[1..];
        RunOne(rest[0], rest[1..]);
        rest := rest[1..];
      }
    }

    method RunOne(q: HostQueue, ghost rest: seq<HostQueue>)
      requires Inv({}) && q in hosts && Pending([q] + rest)
      modifies disk`fs, disk`trace, disk`faults, disk`fastFiles, Envs()`dir, Envs()`efile, `live, `held, `used
      modifies live`hq, live`loaded, live`punt, q`status, q`noPunt
      modifies `hosts, `queues, queues`msgs, queues`entries, queues`jailed
      ensures Inv({}) && hosts == old(hosts) && queues == old(queues) && Grown() && Pending(rest)
      ensures held.Keeps(old(held))
    {
      QDeliver(q);
    }

    // ---------- Expanding ----------

    /** The messages that wait for a host are among these. */
    ghost predicate Waiting(ms: seq<Message>)
      reads `live, live`hq
    {
      forall m {:trigger m.hq} :: m in live ==> m.hq == null || m.hq == unexpanded || m.hq == punt || m in ms
    }

    /** The messages that this expansion has queued. */
    ghost predicate Children(cs: seq<Message>)
      reads `live, live`hq
    {
      Distinct(cs) && (forall c :: c in cs ==> c in live && c.hq != null) && Waiting(cs)
    }

    /** A message for this domain, one level below `m`, and known. */
    twostate predicate Born(m: Message, new c: Message, domain: string)
      reads c, c.env, m, m.env, `live, `held
    {
      && fresh(c) && fresh(c.env) && c.hq == null && !c.punt && c.loaded && c.env.dir == Fast
      && c.host == domain && c.env.level == m.env.level + 1 && c.prisoner == m.prisoner && c.env.id !in old(used)
      && live == old(live) + {c} && held == old(held).With(c.env.id)
    }

    /** The files of a child. */
    method FileChild(m: Message, domain: string) returns (c: Message?)
      requires Filed() && m in live && m.env.dir == Fast
      modifies disk`fs, disk`trace, disk`faults, disk`fastFiles, `live, `held, `used
      ensures Filed() && old(used) <= used && disk.Faulty(old(disk.faults), c != null)
      ensures if c == null then live == old(live) && held == old(held) else Born(m, c, domain)
    {
      c := Create(domain, false, m);
      if c == null { return; }
      var ok := WriteChild(disk, m.env, c.env, held, start);
      if !ok { return null; }
      Know(c);
    }

    /** expand.c:456-544: a child is created, linked and written. */
    method WriteNextChild(m: Message, domain: string) returns (c: Message?)
      requires Inv({m}) && m.env.dir == Fast
      modifies disk`fs, disk`trace, disk`faults, disk`fastFiles, `live, `held, `used
      ensures old(used) <= used && disk.Faulty(old(disk.faults), c != null)
      ensures if c == null then Inv({m}) && live == old(live) && held == old(held)
          else Inv({m, c}) && Born(m, c, domain)
    {
      c := FileChild(m, domain);
      if c != null {
        assert {m} + {c} == {m, c};
      }
    }

    /** expand.c:547 */
    method QueueChild(m: Message, c: Message, ghost cs: seq<Message>)
      requires Inv({m, c}) && c != m && c.hq == null && !c.punt && c.env.dir == Fast && Children(cs)
      modifies `hosts, `queues, queues`msgs, queues`entries, queues`jailed, c`hq
      ensures Inv({m}) && GrownQueues() && Children(cs + [c])
    {
      assert {m, c} - {c} == {m} && c !in cs;
      QueueEnvelope(c, {m, c});
      assert Distinct(cs + [c]);
    }

    /** expand.c:697-714: a child leaves its queue, and its files are removed. */
    method Withdraw(c: Message, ghost m: Message)
      requires Inv({m}) && c in live && c.hq != null
      modifies disk`fs, disk`trace, disk`faults, disk`fastFiles, c.env`efile, `live, `held
      modifies c.hq`msgs, c.hq`entries, c.hq`jailed, c`hq
      ensures Inv({m}) && live == old(live) - {c} && held == old(held).Gone(c.env.id)
      ensures disk.faults >= old(disk.faults)
    {
      Take(c, {m});
      assert {m} + {c} - {c} == {m};
      Erase(c, {m} + {c});
    }

    lemma RestWaits(cs: seq<Message>)
      requires Children(cs) && cs != []
      ensures cs[0] in live && cs[0].hq != null
      ensures forall x :: x in cs <==> x == cs[0] || x in cs[1..]
      ensures cs[0] !in cs[1..] && Distinct(cs[1..])
    {}

    method WithdrawFirst(cs: seq<Message>, ghost m: Message)
      requires Inv({m}) && Children(cs) && cs != []
      modifies disk`fs, disk`trace, disk`faults, disk`fastFiles, {cs[0].env}`efile, `live, `held
      modifies queues`msgs, queues`entries, queues`jailed, {cs[0]}`hq
      ensures Inv({m}) && live <= old(live) && Children(cs[1..]) && held == old(held).Gone(cs[0].env.id)
      ensures disk.faults >= old(disk.faults)
    {
      RestWaits(cs);
      Withdraw(cs[0], m);
    }

    method Unwind(children: seq<Message>, ghost m: Message)
      requires Inv({m}) && Children(children)
      modifies disk`fs, disk`trace, disk`faults, disk`fastFiles, (set c | c in children :: c.env)`efile, `live, `held
      modifies queues`msgs, queues`entries, queues`jailed, (set c | c in children)`hq
      ensures Inv({m}) && Children([]) && live <= old(live) && held.Spares(old(held), Ids(children))
      ensures disk.faults >= old(disk.faults)
    {
      var rest := children;
      while rest != []
        invariant Inv({m}) && live <= old(live) && Children(rest) && forall c :: c in rest ==> c in children
        invariant held.Spares(old(held), Ids(children)) && disk.faults >= old(disk.faults)
      {
        assert rest[0] in children;
        WithdrawFirst(rest, m);
        rest := rest[1..];
      }
    }

    method AddChild(m: Message, domain: string, children: seq<Message>) returns (c: Message?)
      requires Inv({m}) && m.env.dir == Fast && Children(children)
      modifies disk`fs, disk`trace, disk`faults, disk`fastFiles, `live, `held, `used
      modifies `hosts, `queues, queues`msgs, queues`entries, queues`jailed
      ensures Inv({m}) && Grown() && GrownQueues() && held.Spares(old(held), {}) && old(used) <= used
      ensures disk.Faulty(old(disk.faults), c != null)
      ensures if c == null then Children(children)
        else Children(children + [c]) && fresh(c) && fresh(c.env) && c.host == domain && c.env.id !in old(used)
    {
      c := Bear(m, domain, children);
      if c != null {
        QueueChild(m, c, children);
      }
    }

    method Bear(m: Message, domain: string, ghost children: seq<Message>) returns (c: Message?)
      requires Inv({m}) && m.env.dir == Fast && Children(children)
      modifies disk`fs, disk`trace, disk`faults, disk`fastFiles, `live, `held, `used
      ensures old(used) <= used && disk.Faulty(old(disk.faults), c != null) && Children(children)
      ensures held.Spares(old(held), {}) && live == old(live) + if c == null then {} else {c}
      ensures if c == null then Inv({m})
        else Inv({m, c}) && c != m && c.hq == null && !c.punt && c.env.dir == Fast && c.host == domain
      ensures c != null ==> fresh(c) && fresh(c.env) && c.env.id !in old(used)
    {
      c := WriteNextChild(m, domain);
      StillChildren(children);
    }

    /** A message that is in no queue changes nothing. */
    lemma StillChildren(cs: seq<Message>)
      requires Distinct(cs) && (forall c :: c in cs ==> c in live && c.hq != null)
      requires forall m {:trigger m.hq} :: m in live && m.hq != null && m.hq != unexpanded && m.hq != punt ==> m in cs
      ensures Children(cs)
    {}

    /** One message for each domain. */
    ghost predicate For(cs: seq<Message>, domains: seq<string>) {
      |cs| == |domains| && forall i :: 0 <= i < |cs| ==> cs[i].host == domains[i]
    }

    lemma NextFor(cs: seq<Message>, domains: seq<string>, i: nat, c: Message)
      requires i < |domains| && For(cs, domains[..i]) && c.host == domains[i]
      ensures For(cs + [c], domains[..i + 1])
    {}

    /** expand.c:501-553: the children, up to the first failure. */
    method WriteChildren(m: Message, domains: seq<string>) returns (ok: bool, children: seq<Message>)
      requires Inv({m}) && m.env.dir == Fast && Children([])
      modifies disk`fs, disk`trace, disk`faults, disk`fastFiles, `live, `held, `used
      modifies `hosts, `queues, queues`msgs, queues`entries, queues`jailed
      ensures Inv({m}) && Grown() && GrownQueues() && Children(children) && held.Spares(old(held), {})
      ensures forall c :: c in children ==> c.env.id !in old(used)
      ensures (ok ==> For(children, domains)) && disk.Faulty(old(disk.faults), ok)
    {
      children := [];
      for i := 0 to |domains|
        invariant Inv({m}) && Grown() && GrownQueues() && Children(children) && held.Spares(old(held), {})
        invariant forall c :: c in children ==> c.env.id !in old(used)
        invariant old(used) <= used && For(children, domains[..i]) && disk.faults >= old(disk.faults)
      {
        var c := AddChild(m, domains[i], children);
        if c == null { return false, children; }
        NextFor(children, domains, i, c);
        children := children + [c];
      }
      assert domains[..|domains|] == domains;
      ok := true;
    }

    /** utime on the Dfile of the parent (expand.c:665-668). */
    method TouchParent(ghost m: Message, ghost cs: seq<Message>) returns (ok: bool)
      requires Inv({m}) && Children(cs)
      modifies disk`faults
      ensures Inv({m}) && Children(cs) && disk.Faulty(old(disk.faults), ok)
    {
      ok := disk.Other();
    }

    /** expand.c:501-553 and 665-728: every domain has a message that waits for it, and the message itself is gone; or
      * everything is as it was.
      */
    method Expand(m: Message, domains: seq<string>) returns (ok: bool, ghost children: seq<Message>)
      requires Inv({m}) && m.env.dir == Fast && Children([])
      modifies disk`fs, disk`trace, disk`faults, disk`fastFiles, m.env`efile, `live, `held, `used
      modifies `hosts, `queues, queues`msgs, queues`entries, queues`jailed
      ensures Grown() && GrownQueues() && disk.Faulty(old(disk.faults), ok)
      ensures if ok then Inv({}) && Children(children) else Inv({m}) && Children([])
      ensures ok ==> |children| == |domains| && forall i :: 0 <= i < |domains| ==> children[i].host == domains[i]
      ensures if ok then old(held.safe) <= held.safe + {m.env.id} && held.fate == old(held.fate)[m.env.id := Expanded]
        else held.Spares(old(held), {})
    {
      var cs;
      ok, cs := WriteChildren(m, domains);
      children := cs;
      if ok {
        ok := TouchParent(m, cs);
      }
      if ok {
        DropParent(m, cs);
      } else {
        TakeBack(cs, m, old(used));
      }
    }

    /** The children have taken the place of the message (expand.c:670-677). */
    method DropParent(m: Message, ghost cs: seq<Message>)
      requires Inv({m}) && Children(cs) && m !in cs
      modifies disk`fs, disk`trace, disk`faults, disk`fastFiles, m.env`efile, `live, `held
      ensures Inv({}) && Children(cs) && live <= old(live) && disk.faults >= old(disk.faults)
      ensures old(held.safe) <= held.safe + {m.env.id} && held.fate == old(held.fate)[m.env.id := Expanded]
    {
      assert {m} - {m} == {};
      Erase(m, {m});
      Record(m.env.id, Expanded, {});
    }

    method TakeBack(cs: seq<Message>, ghost m: Message, ghost before: set<string>)
      requires Inv({m}) && Children(cs) && forall c :: c in cs ==> c.env.id !in before
      modifies disk`fs, disk`trace, disk`faults, disk`fastFiles, (set c | c in cs :: c.env)`efile, `live, `held
      modifies queues`msgs, queues`entries, queues`jailed, (set c | c in cs)`hq
      ensures Inv({m}) && Children([]) && live <= old(live) && disk.faults >= old(disk.faults)
      ensures held.fate == old(held.fate) && old(held.safe) * before <= held.safe
    {
      Unwind(cs, m);
    }

    /** queue.c:417-427: an unexpanded message is moved to the fast directory and read; if that fails, it does not
      * matter how much of it has been read.
      */
    method Fetch(m: Message, readable: bool) returns (ok: bool)
      requires Inv({m}) && (m.loaded ==> m.env.dir == Fast)
      modifies disk`fs, disk`trace, disk`faults, disk`fastFiles, m.env`dir, m.env`efile, m`loaded, `held
      ensures Inv({m}) && (ok ==> m.loaded && m.env.dir == Fast) && held.Spares(old(held), {})
      ensures readable && disk.faults == old(disk.faults) ==>
          ok || !Movable(old(disk.fs), m.env.id, old(m.env.dir), Fast)
      ensures old(m.loaded) ==> ok
    {
      if m.loaded { return true; }
      ok := Bring(m);
      if ok {
        ok := readable;
      }
    }

    /** The move to the fast directory; no queue has to do with it. */
    method Bring(m: Message) returns (ok: bool)
      requires Filed() && m in live && !m.loaded
      modifies disk`fs, disk`trace, disk`faults, disk`fastFiles, m.env`dir, m.env`efile, m`loaded, `held
      ensures Filed() && (ok ==> m.loaded && m.env.dir == Fast)
      ensures held == if ok then old(held).With(m.env.id) else old(held)
      ensures disk.Faulty(old(disk.faults), Movable(old(disk.fs), m.env.id, old(m.env.dir), Fast) ==> ok)
    {
      assert forall n :: n in live && n != m ==> n.env != m.env;
      ok := MoveIn(disk, m.env, held, start);
      if ok {
        held := held.With(m.env.id);
        m.loaded := true;
      }
    }

    /** queue.c:465-481 */
    method BounceIf(m: Message, over: bool) returns (gone: bool)
      requires Inv({m}) && (over ==> m.env.dir == Fast)
      modifies disk`fs, disk`trace, disk`faults, disk`fastFiles, m.env`efile, `live, `held, `used
      modifies `hosts, `queues, queues`msgs, queues`entries, queues`jailed
      ensures Inv(if gone then {} else {m}) && hosts == old(hosts) && queues == old(queues) && Grown()
      ensures forall q :: q in queues && q != unexpanded ==> q.msgs == old(q.msgs)
      ensures (gone ==> over && Absent(m)) && disk.faults >= old(disk.faults)
      ensures over && disk.faults == start.faults && m.env.id in old(held.safe) ==> gone
      ensures Ends(old(held), held, m.env.id, gone, {})
    {
      if !over { return false; }
      var ok, b;
      gone, ok, b := BounceAndSettle(m, D.Judgement(true, true, false), false);
    }

    /** queue.c:435-490: a message that cannot be expanded goes back to the slow directory.  One that is too old is
      * bounced and removed; moving what is left of it does nothing.
      */
    method Unexpandable(m: Message, over: bool) returns (gone: bool)
      requires Inv({m}) && (over ==> m.env.dir == Fast)
      modifies disk`fs, disk`trace, disk`faults, disk`fastFiles, m.env`dir, m.env`efile, `live, `held, `used
      modifies `hosts, `queues, queues`msgs, queues`entries, queues`jailed
      ensures Inv({}) && hosts == old(hosts) && queues == old(queues) && Grown()
      ensures forall q :: q in queues && q != unexpanded ==> q.msgs == old(q.msgs)
      ensures Ends(old(held), held, m.env.id, gone, {}) && (gone ==> over) && disk.faults >= old(disk.faults)
      ensures over && disk.faults == start.faults && m.env.id in old(held.safe) ==> gone
    {
      gone := BounceIf(m, over);
      CleanUp(m, gone);
    }

    /** queue.c:486-489 */
    method CleanUp(m: Message, gone: bool)
      requires Inv(if gone then {} else {m}) && (gone ==> Absent(m) && m.env.dir == Fast)
      modifies disk`fs, disk`trace, disk`faults, disk`fastFiles, m.env`dir, m.env`efile, `live, `held
      ensures Inv({}) && live <= old(live) && disk.faults >= old(disk.faults)
      ensures held.safe == old(held.safe) && held.fate == old(held.fate)
    {
      if gone {
        MoveRemains(m);
      } else {
        assert {m} - {m} == {};
        Retire(m, {m});
      }
    }

    method MoveRemains(m: Message)
      requires Inv({}) && Absent(m) && m.env.dir == Fast
      modifies disk`fs, disk`trace, disk`faults, disk`fastFiles, m.env`dir, m.env`efile
      ensures Inv({}) && disk.faults >= old(disk.faults)
    {
      assert held.Away(m.env.id) == held;
      MoveOut(disk, m.env, held, start);
    }

    lemma SomeoneWaits(q: HostQueue, hand: set<Message>)
      requires Tracked(hand) && q in queues && q.msgs != []
      ensures exists m :: m in live && m.hq == q
    {
      assert q.msgs[0] in q.msgs;
    }

    lemma NobodyWaits(hand: set<Message>)
      requires Queues() && Tracked(hand)
      ensures Pending([]) <==> Waiting([])
    {
      forall q | q in hosts && q.msgs != []
        ensures exists m :: m in live && m.hq == q
      {
        SomeoneWaits(q, hand);
      }
    }

    method GiveUp(m: Message, tried: bool)
      requires Inv({m}) && (tried ==> m.env.dir == Fast) && Waiting([])
      modifies disk`fs, disk`trace, disk`faults, disk`fastFiles, m.env`dir, m.env`efile, `live, `held, `used
      modifies `hosts, `queues, queues`msgs, queues`entries, queues`jailed
      ensures Inv({}) && Grown() && queues == old(queues) && Waiting([])
      ensures held.Keeps(old(held)) && (!tried || !slowRunner ==> held.Spares(old(held), {}))
      ensures disk.faults >= old(disk.faults)
    {
      NobodyWaits({m});
      var tooOld: bool := *;
      var _ := Unexpandable(m, tried && slowRunner && tooOld);
      NobodyWaits({});
    }

    /** queue.c:409-490: the first unexpanded message is expanded, or it leaves the fast directory. */
    method ExpandFirst() returns (ok: bool)
      requires Inv({}) && Waiting([]) && unexpanded.msgs != []
      modifies disk`fs, disk`trace, disk`faults, disk`fastFiles, Envs()`dir, Envs()`efile, `live, `held, `used
      modifies live`hq, live`loaded, `hosts, `queues, queues`msgs, queues`entries, queues`jailed
      ensures Inv({}) && Grown() && GrownQueues() && (!ok ==> Waiting([])) && held.Keeps(old(held))
    {
      var m := TakeFirst(unexpanded);
      var readable, expands: bool, domains: seq<string> := *, *, *;
      ok := Fetch(m, readable);
      if ok {
        ok := ExpandFetched(m, expands, domains);
      } else {
        GiveUp(m, false);
      }
    }

    /** `expands` says that the recipients can be looked up; `domains` are those of the result. */
    method ExpandFetched(m: Message, expands: bool, domains: seq<string>) returns (ok: bool)
      requires Inv({m}) && m.env.dir == Fast && Waiting([])
      modifies disk`fs, disk`trace, disk`faults, disk`fastFiles, m.env`dir, m.env`efile, `live, `held, `used
      modifies `hosts, `queues, queues`msgs, queues`entries, queues`jailed
      ensures Inv({}) && Grown() && GrownQueues() && (!ok ==> Waiting([])) && held.Keeps(old(held))
      ensures ok ==> expands && held.fate == old(held.fate)[m.env.id := Expanded]
      ensures expands && disk.faults == old(disk.faults) ==> ok
    {
      ok := false;
      if expands {
        ghost var children;
        ok, children := Expand(m, domains);
      }
      if !ok {
        GiveUp(m, true);
      }
    }

    /** queue.c:407-490: messages are expanded until one can be delivered, or none is left.  `patience` bounds them,
      * because old messages that are bounced add new ones.
      */
    method ExpandOne(patience: nat) returns (found: bool, left: nat)
      requires Inv({}) && Waiting([])
      modifies disk`fs, disk`trace, disk`faults, disk`fastFiles, Envs()`dir, Envs()`efile, `live, `held, `used
      modifies live`hq, live`loaded, `hosts, `queues, queues`msgs, queues`entries, queues`jailed
      ensures Inv({}) && Grown() && GrownQueues() && held.Keeps(old(held))
      ensures if found then left < patience else left <= patience && Waiting([]) && (left > 0 ==> unexpanded.msgs == [])
    {
      left := patience;
      while left > 0 && unexpanded.msgs != []
        invariant Inv({}) && Grown() && GrownQueues() && Waiting([]) && left <= patience && held.Keeps(old(held))
      {
        found := ExpandFirst();
        left := left - 1;
        if found { return; }
      }
      found := false;
    }

    // ---------- The run ----------

    /** queue.c:325-405: all mail that can be delivered, then the mail that is punted. */
    method Deliveries()
      requires Inv({})
      modifies disk`fs, disk`trace, disk`faults, disk`fastFiles, Envs()`dir, Envs()`efile, `live, `held, `used
      modifies live`hq, live`loaded, live`punt, queues`status, queues`noPunt
      modifies `hosts, `queues, queues`msgs, queues`entries, queues`jailed
      ensures Inv({}) && Grown() && queues == old(queues) && Waiting([]) && held.Keeps(old(held))
      ensures punt != null ==> punt.msgs == [] || punt.status == D.PuntDown
    {
      RunHosts();
      if punt != null && punt.msgs != [] {
        QDeliver(punt);
      }
      NobodyWaits({});
    }

    /** queue.c:527-533: mail that could not be punted goes to the slow directory. */
    method DrainPunt()
      requires Inv({}) && Waiting([])
      modifies disk`fs, disk`trace, disk`faults, disk`fastFiles, Envs()`dir, Envs()`efile, `live, `held
      modifies live`hq, queues`msgs, queues`entries, queues`jailed
      ensures Inv({}) && Waiting([]) && live <= old(live) && unexpanded.msgs == old(unexpanded.msgs)
      ensures held.Spares(old(held), {}) && disk.faults >= old(disk.faults)
      ensures punt != null ==> punt.msgs == []
    {
      if punt == null { return; }
      while punt.msgs != []
        invariant Inv({}) && Waiting([]) && live <= old(live) && unexpanded.msgs == old(unexpanded.msgs)
        invariant held.Spares(old(held), {}) && disk.faults >= old(disk.faults)
        decreases |punt.msgs|
      {
        RetireFirst();
      }
    }

    method RetireFirst()
      requires Inv({}) && Waiting([]) && punt != null && punt.msgs != []
      modifies disk`fs, disk`trace, disk`faults, disk`fastFiles, {punt.msgs[0].env}`dir, {punt.msgs[0].env}`efile
      modifies `live, `held, {punt.msgs[0]}`hq, punt`msgs, punt`entries, punt`jailed
      ensures Inv({}) && Waiting([]) && live <= old(live) && |punt.msgs| < |old(punt.msgs)|
      ensures held.Spares(old(held), {}) && disk.faults >= old(disk.faults)
    {
      var m := TakeFirst(punt);
      assert {m} - {m} == {};
      Retire(m, {m});
    }

    /** No message has been tried yet. */
    ghost predicate Arrived()
      reads `live, live`punt, live`loaded, Envs()`dir
    {
      forall m :: m in live ==> !m.punt && (m.loaded ==> m.env.dir == Fast)
    }

    /** A message that the scan of the slow or of the local directory has found (queue.c:949-972): it is queued, and
      * safe from now on, if its Efile is still there.
      */
    method Admit(dir: Dir, id: string, host: string, prisoner: bool, etime: int, level: int) returns (ok: bool)
      requires Inv({}) && Arrived() && dir in {Slow, Local}
      requires dir == Local ==> forall n :: n in disk.fs && n.dir == Slow ==> n.id != id
      modifies `used, `live, `held, `hosts, `queues, queues`msgs, queues`entries, queues`jailed
      ensures Inv({}) && Arrived() && GrownQueues() && (ok <==> id !in old(used))
      ensures !ok ==> live == old(live)
      ensures ok ==>
          exists m :: live == old(live) + {m} && fresh(m) && m.env.id == id && m.host == host && m.hq != null
      ensures held.Spares(old(held), {}) && (ok && Name(dir, EFile, id) in disk.fs ==> id in held.safe)
    {
      if id in used { return false; }
      var env := new Envelope(id, dir, level);
      var m := new Message(env, host, prisoner, etime);
      AdmitNew(m);
      ok := true;
    }

    method AdmitNew(m: Message)
      requires Inv({}) && Arrived() && Arrival(m)
      modifies `used, `live, `held, `hosts, `queues, queues`msgs, queues`entries, queues`jailed, m`hq
      ensures Inv({}) && Arrived() && GrownQueues() && live == old(live) + {m} && m.hq != null
      ensures held.Spares(old(held), {}) && (m.env.E() in disk.fs ==> m.env.id in held.safe)
    {
      KnowArrival(m);
      assert {m} - {m} == {};
      Sort(m, {m});
    }

    ghost predicate Arrival(m: Message)
      reads m, m.env, `used, `live, disk`fs
    {
      m !in live && m.hq == null && !m.punt && !m.loaded && m.env.dir in {Slow, Local} && m.env.id !in used
      && (m.env.dir == Local ==> forall n :: n in disk.fs && n.dir == Slow ==> n.id != m.env.id)
    }

    method FileArrival(m: Message)
      requires Filed() && Arrival(m)
      modifies `used, `live, `held
      ensures Filed() && live == old(live) + {m}
      ensures held.Spares(old(held), {}) && (m.env.E() in disk.fs ==> m.env.id in held.safe)
    {
      NewIsNotHeld(live, used, held, m.env.id);
      used := used + {m.env.id};
      live := live + {m};
      ghost var there := if m.env.E() in disk.fs then {m.env.id} else {};
      held := held.(local := held.local + if m.env.dir == Local then {m.env.id} else {}, safe := held.safe + there);
    }

    method KnowArrival(m: Message)
      requires Inv({}) && Arrived() && Arrival(m)
      modifies `used, `live, `held
      ensures Inv({m}) && Arrived() && live == old(live) + {m}
      ensures held.Spares(old(held), {}) && (m.env.E() in disk.fs ==> m.env.id in held.safe)
    {
      FileArrival(m);
    }

    method Detach(q: HostQueue) returns (envs: seq<Message>)
      requires Inv({}) && q in queues
      modifies q`msgs, q`entries, q`jailed, live`hq
      ensures Inv(Elements(envs)) && envs == old(q.msgs) && Distinct(envs)
    {
      envs := q.Clear();
    }

    /** queue_time_order (queue.c:254-286): the messages of a queue are queued afresh. */
    method TimeOrder(q: HostQueue)
      requires Inv({}) && q in queues && Arrived()
      modifies disk`faults, `live, `held, `hosts, `queues, queues`msgs, queues`entries, queues`jailed, live`hq
      ensures Inv({}) && Arrived() && GrownQueues() && old(queues) <= queues && held.Spares(old(held), {})
      ensures Remain(old(live), live, if disk.faults == start.faults then old(held.safe) else {})
      ensures disk.faults >= old(disk.faults)
    {
      var envs := Detach(q);
      for i := 0 to |envs|
        invariant Inv(Elements(envs[i..])) && Arrived() && GrownQueues() && old(queues) <= queues
        invariant held.Spares(old(held), {}) && disk.faults >= old(disk.faults)
        invariant Remain(old(live), live, if disk.faults == start.faults then old(held.safe) else {})
      {
        ElementsRest(envs, i);
        Reinsert(envs[i], Elements(envs[i..]));
      }
    }

    method TimeOrderAll()
      requires Inv({}) && Arrived()
      modifies disk`faults, `live, `held, `hosts, `queues, queues`msgs, queues`entries, queues`jailed, live`hq
      ensures Inv({}) && GrownQueues() && held.Spares(old(held), {}) && disk.faults >= old(disk.faults)
      ensures Remain(old(live), live, if disk.faults == start.faults then old(held.safe) else {})
    {
      TimeOrder(unexpanded);
      var qs := hosts;
      for i := 0 to |qs|
        invariant Inv({}) && Arrived() && GrownQueues() && held.Spares(old(held), {}) && disk.faults >= old(disk.faults)
        invariant Remain(old(live), live, if disk.faults == start.faults then old(held.safe) else {})
        invariant forall q :: q in qs ==> q in queues
      {
        TimeOrder(qs[i]);
      }
    }

    method StatEfile(m: Message, ghost hand: set<Message>) returns (there: bool)
      requires Inv(hand) && m in hand
      modifies disk`faults
      ensures Inv(hand) && (!there ==> Sound(disk, held.Away(m.env.id), start))
      ensures disk.Faulty(old(disk.faults), there <==> m.env.E() in disk.fs)
      ensures !there && disk.faults == start.faults ==> m.env.id !in held.safe
    {
      var ok := disk.Other();
      there := ok && m.env.E() in disk.fs;
      if !there {
        AwayConserved(disk.fs, disk.fs, m.env.id, held, disk.faults == start.faults);
      }
    }

    /** queue.c:267-284: a message whose Efile is gone is dropped. */
    method Reinsert(m: Message, ghost hand: set<Message>)
      requires Inv(hand) && m in hand && Arrived()
      modifies disk`faults, `live, `held, `hosts, `queues, queues`msgs, queues`entries, queues`jailed, m`hq
      ensures Inv(hand - {m}) && Arrived() && GrownQueues() && old(queues) <= queues
      ensures held.Spares(old(held), {}) && disk.faults >= old(disk.faults)
      ensures Remain(old(live), live, if disk.faults == start.faults then old(held.safe) else {})
      ensures disk.faults == start.faults && m.env.id in old(held.safe) ==> m in live && m.hq != null
    {
      var there := StatEfile(m, hand);
      if there {
        Sort(m, hand);
      } else {
        Forget(m, held.Away(m.env.id), hand);
      }
    }

    method Sort(m: Message, ghost hand: set<Message>)
      requires Inv(hand) && m in hand && Arrived()
      modifies `hosts, `queues, queues`msgs, queues`entries, queues`jailed, m`hq
      ensures Inv(hand - {m}) && Arrived() && GrownQueues() && old(queues) <= queues && m.hq != null
    {
      QueueEnvelope(m, hand);
    }

    /** q_runner (queue.c:289-548).  Unless the patience ends, every queue is empty afterwards; the counter always
      * equals the number of Efiles in the fast directory, and if no system call failed, it is zero.  No message is
      * lost: each that was safe is settled, expanded or cannot be read, or it is still safe, and if no system call
      * failed, that means it is complete in the slow directory.  Whatever call a crash interrupts, the spool is in
      * shape for the next start.
      */
    method QRunner(patience: nat) returns (done: bool, ok: bool)
      requires Inv({}) && Arrived()
      modifies this, disk, live, Envs(), queues
      ensures Inv({}) && disk.fastFiles == |FastEfiles(disk.fs)|
      ensures forall k :: start.states <= k < |disk.trace| ==> InShape(disk.trace[k])
      ensures done ==> live == {} && forall q :: q in queues ==> q.msgs == [] && q.entries == 0 && q.jailed == 0
      ensures done ==> (ok <==> FastEfiles(disk.fs) == {}) && (disk.faults == start.faults ==> ok)
      ensures forall id :: id in old(held.safe) ==> id in held.safe || id in held.fate
      ensures done && disk.faults == start.faults ==> forall id :: id in held.safe ==> Complete(disk.fs, Slow, id)
    {
      TimeOrderAll();
      var left, found := patience, true;
      while found && left > 0
        invariant Inv({}) && Grown() && GrownQueues() && held.Keeps(old(held))
        invariant !found ==> Waiting([]) && (left > 0 ==> unexpanded.msgs == [])
      {
        Deliveries();
        found, left := ExpandOne(left);
      }
      done := !found && left > 0;
      if !done { return false, false; }
      DrainPunt();
      AllDone();
      ok := disk.fastFiles == 0;
    }

    /** With all queues empty nothing is known, and nothing is in the fast directory that should not be. */
    lemma AllDone()
      requires Inv({}) && Waiting([]) && unexpanded.msgs == [] && (punt != null ==> punt.msgs == [])
      ensures live == {} && forall q :: q in queues ==> q.msgs == [] && q.entries == 0 && q.jailed == 0
      ensures disk.faults == start.faults ==> FastEfiles(disk.fs) == {}
      ensures disk.faults == start.faults ==> forall id :: id in held.safe ==> Complete(disk.fs, Slow, id)
      ensures disk.fastFiles == 0 <==> FastEfiles(disk.fs) == {}
    {
      forall m: Message
        ensures m !in live
      {
        var q := m.hq;
      }
      forall q | q in queues
        ensures q.msgs == []
      {
        NoMembers(q.msgs);
      }
    }
  }
}
