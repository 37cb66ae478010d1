/** Finding and undoing interrupted expansions at startup (q_cleanup.c:345-460). */
module ExpansionCleanup {
  import opened Spool
  import opened SpoolOps
  import opened DirStartup
  import opened ExpandCommit

  /** `struct i_list`: the messages met so far whose Dfiles are one inode. */
  datatype Shared = Shared(ino: nat, expanded: seq<Envelope>, unexpanded: Envelope?)

  /** Messages on one level, or one message and its children. */
  ghost predicate Family(es: set<Envelope>)
    reads es`level
  {
    && (forall a, b, c :: a in es && b in es && c in es && c.level == a.level + 1 && c.level == b.level + 1 ==> a == b)
    && (forall a, b :: a in es && b in es ==> a.level <= b.level + 1)
  }

  /** What the record of an inode knows about the messages `es` that have been sorted into it. */
  ghost predicate Records(g: Shared, es: set<Envelope>)
    reads es`level, es`ino, es`doomed
  {
    && |g.expanded| > 0
    && (forall e :: e in g.expanded ==> e in es)
    && (forall e :: e in es ==> e.ino == g.ino)
    && (if g.unexpanded == null then
          && (forall i, j :: 0 <= i < j < |g.expanded| ==> g.expanded[i] != g.expanded[j])
          && (forall e :: e in es ==> e in g.expanded && !e.doomed && e.level == g.expanded[0].level)
        else
          && g.unexpanded in es && !g.unexpanded.doomed && g.expanded[0] != g.unexpanded
          && (forall e :: e in es && e != g.unexpanded ==> e.doomed && e.level == g.unexpanded.level + 1))
  }

  method Doom(es: seq<Envelope>)
    modifies (set e | e in es)`doomed
    ensures forall e :: e in es ==> e.doomed
  {
    for i := 0 to |es|
      invariant forall j :: 0 <= j < i ==> es[j].doomed
    {
      es[i].doomed := true;
    }
  }

  /** q_cleanup.c:381-421: a message joins the record of its inode.  The two assertions of the code hold unless
    * the messages of the inode are not a family.
    */
  method Classify(g: Shared, env: Envelope, ghost es: set<Envelope>) returns (aborted: bool, r: Shared)
    requires Records(g, es) && env !in es && env.ino == g.ino && !env.doomed
    modifies (es + {env})`doomed
    ensures aborted ==> !Family(es + {env})
    ensures !aborted ==> r.ino == g.ino && Records(r, es + {env})
  {
    aborted, r := false, g;
    if g.unexpanded != null {
      if env.level - 1 != g.unexpanded.level {
        assert g.expanded[0] in es + {env} && g.unexpanded in es + {env};
        return true, g;
      }
      env.doomed := true;
    } else if g.expanded[0].level == env.level {
      r := g.(expanded := [env] + g.expanded);
    } else if g.expanded[0].level == env.level + 1 {
      r := g.(unexpanded := env);
      Doom(g.expanded);
    } else {
      if |g.expanded| > 1 || g.expanded[0].level != env.level - 1 {
        assert |g.expanded| > 1 ==> g.expanded[1] in es + {env};
        assert g.expanded[0] in es + {env};
        return true, g;
      }
      r := Shared(g.ino, [env], g.expanded[0]);
      env.doomed := true;
    }
  }

  ghost function Sharing(es: set<Envelope>, ino: nat): set<Envelope>
    reads es`ino
  {
    set e | e in es && e.ino == ino
  }

  /** The inode list: ascending, one record for every inode among the messages `es`. */
  ghost predicate Table(inodes: seq<Shared>, es: set<Envelope>)
    reads es`level, es`ino, es`doomed
  {
    && Ascending(inodes)
    && (forall g :: g in inodes ==> Records(g, Sharing(es, g.ino)))
    && (forall e :: e in es ==> exists g :: g in inodes && g.ino == e.ino)
  }

  ghost predicate Ascending(inodes: seq<Shared>) {
    forall i, j :: 0 <= i < j < |inodes| ==> inodes[i].ino < inodes[j].ino
  }

  /** The position at which an inode is or would have to be. */
  method FindInode(inodes: seq<Shared>, ino: nat) returns (i: nat)
    requires Ascending(inodes)
    ensures i <= |inodes| && (forall j :: 0 <= j < i ==> inodes[j].ino < ino) && (i < |inodes| ==> ino <= inodes[i].ino)
  {
    i := 0;
    while i < |inodes| && ino > inodes[i].ino
      invariant i <= |inodes| && forall j :: 0 <= j < i ==> inodes[j].ino < ino
    {
      i := i + 1;
    }
  }

  lemma TableSet(inodes: seq<Shared>, r: seq<Shared>, g: Shared, es: set<Envelope>, env: Envelope)
    requires Ascending(r) && g.ino == env.ino && forall h :: h in r <==> h == g || (h in inodes && h.ino != env.ino)
    requires forall h :: h in inodes && h.ino != env.ino ==> Records(h, Sharing(es, h.ino))
    requires forall e :: e in es && e.ino != env.ino ==> exists h :: h in inodes && h.ino == e.ino
    requires Records(g, Sharing(es + {env}, env.ino))
    ensures Table(r, es + {env})
  {}

  lemma RecordReplaced(inodes: seq<Shared>, i: nat, g: Shared)
    requires Ascending(inodes) && i < |inodes| && g.ino == inodes[i].ino
    ensures Ascending(inodes[i := g])
    ensures forall h :: h in inodes[i := g] <==> h == g || (h in inodes && h.ino != g.ino)
  {
    forall j | 0 <= j < |inodes| && j != i
      ensures inodes[j] in inodes[i := g] && inodes[j].ino != g.ino
    {
      assert inodes[i := g][j] == inodes[j];
    }
    assert inodes[i := g][i] == g;
  }

  lemma RecordInserted(inodes: seq<Shared>, i: nat, g: Shared)
    requires Ascending(inodes) && i <= |inodes|
    requires forall j :: 0 <= j < i ==> inodes[j].ino < g.ino
    requires i < |inodes| ==> g.ino < inodes[i].ino
    ensures Ascending(inodes[..i] + [g] + inodes[i..])
    ensures forall h :: h in inodes[..i] + [g] + inodes[i..] <==> h == g || (h in inodes && h.ino != g.ino)
  {}

  method NewRecord(inodes: seq<Shared>, i: nat, env: Envelope, ghost es: set<Envelope>) returns (r: seq<Shared>)
    requires Table(inodes, es) && !env.doomed && i <= |inodes|
    requires forall j :: 0 <= j < i ==> inodes[j].ino < env.ino
    requires i < |inodes| ==> env.ino < inodes[i].ino
    ensures Table(r, es + {env})
  {
    var g := Shared(env.ino, [env], null);
    r := inodes[..i] + [g] + inodes[i..];
    RecordInserted(inodes, i, g);
    assert Records(g, Sharing(es + {env}, env.ino)) by {
      assert Sharing(es + {env}, env.ino) == {env} by {
        assert forall e :: e in es ==> e.ino != env.ino;
      }
    }
    TableSet(inodes, r, g, es, env);
  }

  method UpdateRecord(inodes: seq<Shared>, i: nat, env: Envelope, ghost es: set<Envelope>)
    returns (aborted: bool, r: seq<Shared>)
    requires Table(inodes, es) && env !in es && !env.doomed && i < |inodes| && inodes[i].ino == env.ino
    modifies (es + {env})`doomed
    ensures aborted ==> !Family(Sharing(es + {env}, env.ino))
    ensures !aborted ==> Table(r, es + {env})
  {
    assert Sharing(es + {env}, env.ino) == Sharing(es, env.ino) + {env};
    assert forall h :: h in inodes && h.ino != env.ino ==> Sharing(es, h.ino) !! Sharing(es, env.ino) + {env};
    var g;
    aborted, g := Classify(inodes[i], env, Sharing(es, env.ino));
    r := inodes[i := g];
    if !aborted {
      RecordReplaced(inodes, i, g);
      TableSet(inodes, r, g, es, env);
    }
  }

  /** q_cleanup.c:374-440 */
  method Record(inodes: seq<Shared>, env: Envelope, ghost es: set<Envelope>) returns (aborted: bool, r: seq<Shared>)
    requires Table(inodes, es) && env !in es && !env.doomed
    modifies (es + {env})`doomed
    ensures aborted ==> !Family(Sharing(es + {env}, env.ino))
    ensures !aborted ==> Table(r, es + {env})
  {
    var i := FindInode(inodes, env.ino);
    if i < |inodes| && env.ino == inodes[i].ino {
      aborted, r := UpdateRecord(inodes, i, env, es);
    } else {
      aborted := false;
      r := NewRecord(inodes, i, env, es);
    }
  }

  // ---------- The messages of the fast directory ----------

  /** The fields of `e` are those of its files. */
  ghost predicate Stated(fs: Fs, e: Envelope)
    requires Typed(fs)
    reads e`ino, e`level
  {
    Complete(fs, Fast, e.id) && e.ino == Inode(fs, e.id) && e.level == Level(fs, e.id)
  }

  ghost predicate Alone(fs: Fs, id: string)
    requires Typed(fs)
  {
    forall w :: SameInode(fs, id, w) ==> w == id
  }

  lemma NotAFamily(fs: Fs, es: set<Envelope>, ino: nat)
    requires Typed(fs) && (forall e :: e in es ==> Stated(fs, e))
    requires forall a, b :: a in es && b in es && a.id == b.id ==> a == b
    requires !Family(Sharing(es, ino))
    ensures !Families(fs)
  {
    var s := Sharing(es, ino);
    if a, b, c :| a in s && b in s && c in s && c.level == a.level + 1 && c.level == b.level + 1 && a != b {
      assert ChildOf(fs, c.id, a.id) && ChildOf(fs, c.id, b.id);
    } else {
      var a, b :| a in s && b in s && a.level > b.level + 1;
      assert SameInode(fs, a.id, b.id);
    }
  }

  /** Of the first `i` messages exactly those that may share an inode are in `es`. */
  ghost predicate Placed(fs: Fs, ms: seq<Envelope>, i: nat, es: set<Envelope>)
    requires Typed(fs) && i <= |ms|
  {
    && (forall j :: 0 <= j < i ==> ms[j] in es || Alone(fs, ms[j].id))
    && (forall j :: i <= j < |ms| ==> ms[j] !in es)
    && (forall e :: e in es ==> e in ms)
  }

  lemma PlacedNext(fs: Fs, ms: seq<Envelope>, i: nat, es: set<Envelope>)
    requires Typed(fs) && Sorted(ms) && i < |ms| && Placed(fs, ms, i, es)
    ensures Placed(fs, ms, i + 1, es + {ms[i]})
    ensures Alone(fs, ms[i].id) ==> Placed(fs, ms, i + 1, es)
  {
    StrCmpOrders(ms[i].id, ms[i].id);
  }

  ghost predicate Unmarked(ms: seq<Envelope>, es: set<Envelope>)
    reads ms`doomed
  {
    forall e :: e in ms && e !in es ==> !e.doomed
  }

  ghost predicate AllStated(fs: Fs, es: set<Envelope>)
    requires Typed(fs)
    reads es`ino, es`level
  {
    forall e :: e in es ==> Stated(fs, e)
  }

  /** The first `i` messages have been sorted. */
  ghost predicate Sorting(fs: Fs, ms: seq<Envelope>, i: nat, inodes: seq<Shared>, es: set<Envelope>)
    requires Typed(fs) && i <= |ms|
    reads ms`doomed, es`level, es`ino, es`doomed
  {
    Table(inodes, es) && AllStated(fs, es) && Unmarked(ms, es) && Placed(fs, ms, i, es)
  }

  lemma TableIsFamily(inodes: seq<Shared>, es: set<Envelope>, e: Envelope)
    requires Table(inodes, es) && e in es
    ensures Family(Sharing(es, e.ino))
    ensures e.doomed <==> exists w :: w in es && w.ino == e.ino && e.level == w.level + 1
  {}

  /** Messages that share an inode are in the table. */
  lemma SharersInTable(fs: Fs, ms: seq<Envelope>, inodes: seq<Shared>, es: set<Envelope>, a: string, b: string)
    returns (e: Envelope, f: Envelope)
    requires Typed(fs) && Messages(ms, fs, Fast) && Sorting(fs, ms, |ms|, inodes, es) && SameInode(fs, a, b) && a != b
    ensures e in es && f in es && e.id == a && f.id == b && e.ino == f.ino
    ensures e in Sharing(es, e.ino) && f in Sharing(es, e.ino) && Family(Sharing(es, e.ino))
  {
    assert SameInode(fs, b, a);
    e :| e in ms && e.id == a;
    f :| f in ms && f.id == b;
    TableIsFamily(inodes, es, e);
  }

  lemma SortedOut(fs: Fs, ms: seq<Envelope>, inodes: seq<Shared>, es: set<Envelope>)
    requires Typed(fs) && Messages(ms, fs, Fast) && Sorting(fs, ms, |ms|, inodes, es)
    ensures Families(fs)
  {
    forall a, b | SameInode(fs, a, b)
      ensures -1 <= Level(fs, a) - Level(fs, b) <= 1
    {
      if a != b {
        var e, f := SharersInTable(fs, ms, inodes, es, a, b);
      }
    }
    forall a, b, c | ChildOf(fs, c, a) && ChildOf(fs, c, b)
      ensures a == b
    {
      var e, f := SharersInTable(fs, ms, inodes, es, c, a);
      var e', h := SharersInTable(fs, ms, inodes, es, c, b);
      IdsTellApart(ms);
    }
  }

  lemma DoomedIsInterrupted(fs: Fs, ms: seq<Envelope>, inodes: seq<Shared>, es: set<Envelope>, e: Envelope)
    requires Typed(fs) && Messages(ms, fs, Fast) && Sorting(fs, ms, |ms|, inodes, es) && e in ms && e.doomed
    ensures Interrupted(fs, e.id)
  {}

  lemma InterruptedIsDoomed(fs: Fs, ms: seq<Envelope>, inodes: seq<Shared>, es: set<Envelope>, e: Envelope)
    requires Typed(fs) && Messages(ms, fs, Fast) && Sorting(fs, ms, |ms|, inodes, es) && e in ms
    requires Interrupted(fs, e.id)
    ensures e.doomed
  {
    var n :| n in fs && n.dir == Fast && ChildOf(fs, e.id, n.id);
    var c, w := SharersInTable(fs, ms, inodes, es, e.id, n.id);
    assert c == e by { IdsTellApart(ms); }
    TableIsFamily(inodes, es, e);
  }

  method SetStat(env: Envelope, ino: nat, level: int, ghost inodes: seq<Shared>, ghost es: set<Envelope>)
    requires Table(inodes, es) && env !in es
    modifies env`ino, env`level
    ensures env.ino == ino && env.level == level && Table(inodes, es)
  {
    env.ino, env.level := ino, level;
  }

  /** q_cleanup.c:358-372: the inode, and for a shared one the expansion level, are read. */
  method ReadMessage(d: Disk, env: Envelope, ghost inodes: seq<Shared>, ghost es: set<Envelope>)
    returns (ok: bool, linked: bool)
    requires Typed(d.fs) && Complete(d.fs, Fast, env.id) && env.dir == Fast
    requires Table(inodes, es) && env !in es
    modifies d`faults, env`ino, env`level
    ensures ok ==> if linked then Stated(d.fs, env) else Alone(d.fs, env.id)
    ensures Table(inodes, es)
    ensures d.Faulty(old(d.faults), ok)
  {
    var ino, level := 0, env.level;
    ok, ino, linked := d.Stat(env.D());
    if !ok { return; }
    if linked {
      ok := d.Other(); // env_read
      if !ok { return; }
      level := d.fs[env.E()].level;
    }
    SetStat(env, ino, level, inodes, es);
  }

  method SortShared(d: Disk, ms: seq<Envelope>, i: nat, inodes: seq<Shared>, ghost es: set<Envelope>)
    returns (aborted: bool, r: seq<Shared>)
    requires Typed(d.fs) && Messages(ms, d.fs, Fast) && i < |ms| && Sorting(d.fs, ms, i, inodes, es)
    requires Stated(d.fs, ms[i])
    modifies (es + {ms[i]})`doomed
    ensures aborted ==> !Families(d.fs)
    ensures !aborted ==> Sorting(d.fs, ms, i + 1, r, es + {ms[i]})
  {
    ghost var now := es + {ms[i]};
    PlacedNext(d.fs, ms, i, es);
    assert AllStated(d.fs, now) && Unmarked(ms, now);
    aborted, r := Record(inodes, ms[i], es);
    if aborted {
      assert !Families(d.fs) by {
        IdsTellApart(ms);
        NotAFamily(d.fs, now, ms[i].ino);
      }
    }
  }

  method SortMessage(d: Disk, ms: seq<Envelope>, i: nat, inodes: seq<Shared>, ghost es: set<Envelope>)
    returns (err: bool, aborted: bool, r: seq<Shared>, ghost now: set<Envelope>)
    requires Typed(d.fs) && Messages(ms, d.fs, Fast) && i < |ms| && Sorting(d.fs, ms, i, inodes, es)
    modifies d`faults, (set e | e in ms)`ino, (set e | e in ms)`level, (set e | e in ms)`doomed
    ensures aborted ==> !Families(d.fs)
    ensures !err && !aborted ==> Sorting(d.fs, ms, i + 1, r, now)
    ensures d.Faulty(old(d.faults), !err)
  {
    var ok, linked := ReadMessage(d, ms[i], inodes, es);
    if !ok { return true, false, inodes, es; }
    if !linked {
      PlacedNext(d.fs, ms, i, es);
      return false, false, inodes, es;
    }
    aborted, r := SortShared(d, ms, i, inodes, es);
    err, now := false, es + {ms[i]};
  }

  /** q_cleanup.c:357-441: on success the messages of interrupted expansions are marked.  The assertions of the
    * code can fail only if some inode is shared by messages that are not a family, and then they do.
    */
  method MarkInterrupted(d: Disk, ms: seq<Envelope>) returns (err: bool, aborted: bool)
    requires Typed(d.fs) && Messages(ms, d.fs, Fast) && forall e :: e in ms ==> !e.doomed
    modifies d`faults, (set e | e in ms)`ino, (set e | e in ms)`level, (set e | e in ms)`doomed
    ensures aborted ==> !Families(d.fs)
    ensures !err && !aborted ==> Families(d.fs) && Marked(d.fs, ms)
    ensures d.Faulty(old(d.faults), !err)
  {
    var inodes: seq<Shared> := [];
    ghost var es: set<Envelope> := {};
    for i := 0 to |ms|
      invariant Sorting(d.fs, ms, i, inodes, es)
      invariant old(d.faults) <= d.faults
    {
      err, aborted, inodes, es := SortMessage(d, ms, i, inodes, es);
      if err || aborted { return; }
    }
    SortedOut(d.fs, ms, inodes, es);
    AllMarked(d.fs, ms, inodes, es);
    err, aborted := false, false;
  }

  ghost predicate Marked(fs: Fs, ms: seq<Envelope>)
    requires Typed(fs)
    reads ms`doomed
  {
    forall e :: e in ms ==> (e.doomed <==> Interrupted(fs, e.id))
  }

  lemma AllMarked(fs: Fs, ms: seq<Envelope>, inodes: seq<Shared>, es: set<Envelope>)
    requires Typed(fs) && Messages(ms, fs, Fast) && Sorting(fs, ms, |ms|, inodes, es)
    ensures Marked(fs, ms)
  {
    forall e | e in ms
      ensures e.doomed <==> Interrupted(fs, e.id)
    {
      if e.doomed {
        DoomedIsInterrupted(fs, ms, inodes, es, e);
      } else if Interrupted(fs, e.id) {
        InterruptedIsDoomed(fs, ms, inodes, es, e);
      }
    }
  }

  // ---------- Removing what was marked ----------

  lemma UnlinkInterrupted(f: Fs, s: Fs, id: string)
    requires Typed(f) && PartlyRecovered(f, s) && Interrupted(f, id)
    ensures PartlyRecovered(f, s - {Name(Fast, EFile, id)})
    ensures PartlyRecovered(f, s - {Name(Fast, EFile, id)} - {Name(Fast, DFile, id)})
  {}

  ghost predicate Recovering(d: Disk, before: seq<Fs>, f: Fs)
    requires Typed(f)
    reads d`fs, d`trace
  {
    PartlyRecovered(f, d.fs) && before <= d.trace && forall k :: |before| <= k < |d.trace| ==>
        PartlyRecovered(f, d.trace[k])
  }

  /** Nothing but the files of `ids` is missing, and of those at least the Efiles, without faults also the Dfiles. */
  ghost predicate Swept(f: Fs, s: Fs, ids: set<string>, clean: bool) {
    && (forall n :: n in f && n !in s ==> n.dir == Fast && n.prefix != TFile && n.id in ids)
    && (forall id :: id in ids ==> Name(Fast, EFile, id) !in s && (clean ==> Name(Fast, DFile, id) !in s))
  }

  lemma SweptNext(f: Fs, s: Fs, ids: set<string>, id: string, clean: bool)
    requires Swept(f, s, ids, clean) && id !in ids
    ensures Swept(f, s - {Name(Fast, EFile, id)}, ids + {id}, clean && Name(Fast, DFile, id) !in s)
    ensures Swept(f, s - {Name(Fast, EFile, id)} - {Name(Fast, DFile, id)}, ids + {id}, clean)
  {}

  method UnlinkMessage(d: Disk, env: Envelope, ghost f: Fs, ghost ids: set<string>, ghost clean: bool)
    returns (ok: bool)
    requires Typed(f) && PartlyRecovered(f, d.fs) && Interrupted(f, env.id) && env.dir == Fast
    requires Swept(f, d.fs, ids, clean)
    requires env.id !in ids && Complete(f, Fast, env.id)
    modifies d, env`efile
    ensures Recovering(d, old(d.trace), f)
    ensures if ok then Swept(f, d.fs, ids + {env.id}, clean && d.faults == old(d.faults))
        else Swept(f, d.fs, ids, clean)
    ensures d.Faulty(old(d.faults), ok)
    ensures d.Drift() == old(d.Drift())
  {
    UnlinkInterrupted(f, d.fs, env.id);
    SweptNext(f, d.fs, ids, env.id, clean);
    assert env.E() in d.fs;
    ghost var dfile := env.D() in d.fs;
    ok := d.EnvUnlink(env);
    assert ok && d.faults == old(d.faults) ==> env.D() !in d.fs;
  }

  /** The list without the messages `ids`, of which every one was marked. */
  ghost predicate Remaining(ms: seq<Envelope>, kept: seq<Envelope>, ids: set<string>) {
    && Sorted(kept)
    && (forall e :: e in kept ==> e in ms && e.id !in ids)
    && (forall e :: e in ms && e.id !in ids ==> e in kept)
  }

  /** The first `k` messages of the list stay, the messages `ids` are gone. */
  ghost predicate Sweeping(f: Fs, ms: seq<Envelope>, kept: seq<Envelope>, k: nat, ids: set<string>)
    requires Typed(f) && k <= |kept|
  {
    && Remaining(ms, kept, ids)
    && (forall id :: id in ids ==> Interrupted(f, id))
    && (forall j :: 0 <= j < k ==> !Interrupted(f, kept[j].id))
  }

  lemma SweepingNext(f: Fs, ms: seq<Envelope>, kept: seq<Envelope>, k: nat, ids: set<string>)
    requires Typed(f) && Sorted(ms) && k < |kept| && Sweeping(f, ms, kept, k, ids)
    ensures if Interrupted(f, kept[k].id) then Sweeping(f, ms, kept[..k] + kept[k + 1..], k, ids + {kept[k].id})
            else Sweeping(f, ms, kept, k + 1, ids)
  {
    SortedRemove(kept, k);
    IdsTellApart(ms);
  }

  /** q_cleanup.c:443-457; `ids` are the messages removed. */
  method UnlinkMarked(d: Disk, ms: seq<Envelope>) returns (err: bool, kept: seq<Envelope>, ghost ids: set<string>)
    requires Typed(d.fs) && Messages(ms, d.fs, Fast) && Marked(d.fs, ms)
    modifies d, (set e | e in ms)`efile
    ensures Recovering(d, old(d.trace), old(d.fs)) && Swept(old(d.fs), d.fs, ids, !err && d.faults == old(d.faults))
    ensures Sweeping(old(d.fs), ms, kept, if err then 0 else |kept|, ids)
    ensures d.Faulty(old(d.faults), !err)
    ensures d.Drift() == old(d.Drift())
  {
    ghost var f := d.fs;
    err, kept, ids := false, ms, {};
    var k := 0;
    while k < |kept|
      invariant k <= |kept| && Sweeping(f, ms, kept, k, ids)
      invariant Recovering(d, old(d.trace), f) && Swept(f, d.fs, ids, d.faults == old(d.faults))
      invariant old(d.faults) <= d.faults
      invariant d.Drift() == old(d.Drift())
      decreases |kept| - k
    {
      var env := kept[k];
      assert env.doomed <==> Interrupted(f, env.id);
      SweepingNext(f, ms, kept, k, ids);
      if env.doomed {
        var ok := UnlinkMessage(d, env, f, ids, d.faults == old(d.faults));
        if !ok { return true, kept, ids; }
        kept, ids := kept[..k] + kept[k + 1..], ids + {env.id};
      } else {
        k := k + 1;
      }
    }
  }

  /** Every file in the fast directory belongs to a complete message. */
  ghost predicate InOrder(fs: Fs) {
    forall n :: n in fs && n.dir == Fast ==> n.prefix != TFile && Complete(fs, Fast, n.id)
  }

  lemma RemovedAreInterrupted(f: Fs, ms: seq<Envelope>, kept: seq<Envelope>, ids: set<string>, id: string)
    requires Typed(f) && Messages(ms, f, Fast) && Sweeping(f, ms, kept, |kept|, ids) && Complete(f, Fast, id)
    ensures id in ids <==> Interrupted(f, id)
    ensures id !in ids <==> Listed(kept, id)
  {}

  lemma SweptIsRecovered(f: Fs, s: Fs, ids: set<string>)
    requires Typed(f) && InOrder(f) && Swept(f, s, ids, true) && forall n :: n in s ==> n in f && s[n] == f[n]
    requires forall id :: Complete(f, Fast, id) ==> (id in ids <==> Interrupted(f, id))
    ensures s == Recover(f)
  {}

  lemma RemainingAreComplete(f: Fs, s: Fs, ms: seq<Envelope>, kept: seq<Envelope>, ids: set<string>, clean: bool)
    requires Typed(f) && PartlyRecovered(f, s) && Swept(f, s, ids, clean)
    requires Messages(ms, f, Fast) && Remaining(ms, kept, ids)
    ensures Messages(kept, s, Fast)
  {
    forall id | Complete(s, Fast, id)
      ensures Listed(kept, id)
    {
      assert Complete(f, Fast, id) && id !in ids;
      var e :| e in ms && e.id == id;
    }
  }

  /** q_cleanup.c:345-460 */
  method QExpansionCleanup(d: Disk, ms: seq<Envelope>) returns (err: bool, aborted: bool, kept: seq<Envelope>)
    requires Typed(d.fs) && InOrder(d.fs) && Messages(ms, d.fs, Fast) && forall e :: e in ms ==> !e.doomed
    modifies d, (set e | e in ms)`ino, (set e | e in ms)`level, (set e | e in ms)`doomed, (set e | e in ms)`efile
    ensures aborted ==> !Families(old(d.fs))
    ensures !err && !aborted ==> Families(old(d.fs))
    ensures Recovering(d, old(d.trace), old(d.fs))
    ensures !err && !aborted ==> Messages(kept, d.fs, Fast) && forall e :: e in kept ==> e in ms
    ensures d.Faulty(old(d.faults), !err && (aborted || d.fs == Recover(old(d.fs))))
    ensures d.Drift() == old(d.Drift())
  {
    kept := ms;
    err, aborted := MarkInterrupted(d, ms);
    if err || aborted { return; }
    ghost var ids;
    err, kept, ids := UnlinkMarked(d, ms);
    if !err {
      RemainingAreComplete(old(d.fs), d.fs, ms, kept, ids, d.faults == old(d.faults));
    }
    if d.faults == old(d.faults) {
      forall id | Complete(old(d.fs), Fast, id)
        ensures id in ids <==> Interrupted(old(d.fs), id)
      {
        RemovedAreInterrupted(old(d.fs), ms, kept, ids, id);
      }
      SweptIsRecovered(old(d.fs), d.fs, ids);
    }
  }

  // ---------- The fast directory at startup ----------

  lemma TidyingRecovers(f: Fs, s: Fs)
    requires Typed(f) && Paired(f) && Tidying(f, Fast, s)
    ensures Typed(s) && Paired(s) && PartlyRecovered(f, s)
    ensures s == Tidied(f, Fast) ==> InOrder(s) && (Families(s) <==> Families(f))
  {
    if s == Tidied(f, Fast) {
      forall a, b
        ensures ChildOf(s, a, b) <==> ChildOf(f, a, b)
        ensures SameInode(s, a, b) <==> SameInode(f, a, b)
        ensures SameInode(f, a, b) ==> Level(s, a) == Level(f, a) && Level(s, b) == Level(f, b)
      {}
    }
  }

  /** Every state recorded since `before`, and the present one, recovers to what `f` recovers to. */
  ghost predicate Restartable(d: Disk, before: seq<Fs>, f: Fs)
    requires Typed(f)
    reads d`fs, d`trace
  {
    && Typed(d.fs) && Recover(d.fs) == Recover(f)
    && before <= d.trace
    && forall k :: |before| <= k < |d.trace| ==> Typed(d.trace[k]) && Recover(d.trace[k]) == Recover(f)
  }

  lemma TidyingIsRestartable(d: Disk, before: seq<Fs>, f: Fs)
    requires Typed(f) && Paired(f) && Families(f) && Tidying(f, Fast, d.fs) && TidyingTrace(d, before, f, Fast)
    ensures Restartable(d, before, f)
  {
    forall s | Tidying(f, Fast, s)
      ensures Typed(s) && Recover(s) == Recover(f)
    {
      TidyingRecovers(f, s);
      RecoveryIsRestartable(f, s);
    }
  }

  lemma RecoveringIsRestartable(d: Disk, before: seq<Fs>, f: Fs)
    requires Typed(f) && Paired(f) && Families(f) && Recovering(d, before, f)
    ensures Restartable(d, before, f)
  {
    forall s | PartlyRecovered(f, s)
      ensures Typed(s) && Recover(s) == Recover(f)
    {
      RecoveryIsRestartable(f, s);
    }
  }

  /** Nothing outside the fast directory changes. */
  ghost predicate OnlyFast(f: Fs, s: Fs) {
    forall n: Name :: n.dir != Fast ==> (n in s <==> n in f) && (n in f ==> s[n] == f[n])
  }

  /** q_cleanup.c:80-87: the directory is read and tidied, then interrupted expansions are removed.  A crash at
    * any point leaves a spool that the next start recovers to the same result.
    */
  method RecoverFast(d: Disk, listing: seq<Entry>) returns (err: bool, aborted: bool, kept: seq<Envelope>)
    requires Typed(d.fs) && Paired(d.fs) && ListingOf(d.fs, Fast, listing)
    modifies d
    ensures aborted ==> !Families(old(d.fs))
    ensures !err && !aborted ==> Families(old(d.fs))
    ensures Families(old(d.fs)) ==> Restartable(d, old(d.trace), old(d.fs))
    ensures Unknown in listing ==> err && d.fs == old(d.fs)
    ensures d.Faulty(old(d.faults), err ==> Unknown in listing)
    ensures !err && !aborted ==> Messages(kept, d.fs, Fast) && forall e :: e in kept ==> fresh(e)
    ensures OnlyFast(old(d.fs), d.fs)
    ensures d.Faulty(old(d.faults), !err && !aborted ==> d.fs == Recover(old(d.fs)))
    ensures d.Drift() == old(d.Drift())
  {
    aborted := false;
    ghost var f := d.fs;
    err, kept := QDirStartup(d, Fast, true, listing);
    TidyingRecovers(f, d.fs);
    if Families(f) {
      TidyingIsRestartable(d, old(d.trace), f);
    }
    if err { return; }
    label Tidy:
    err, aborted, kept := QExpansionCleanup(d, kept);
    if Families(f) {
      RecoveringIsRestartable(d, old@Tidy(d.trace), old@Tidy(d.fs));
    }
  }

  /** A crash anywhere in the commit of an expansion, then a restart: the spool holds exactly the parent, or
    * exactly all its children.
    */
  method RestartAfterCrash(d: Disk, listing: seq<Entry>, ghost b: Fs, ghost p: string, ghost cs: seq<string>)
    returns (err: bool, aborted: bool, kept: seq<Envelope>)
    requires Expandable(b, p, cs) && Committing(b, p, cs, d.fs)
    requires ListingOf(d.fs, Fast, listing) && Unknown !in listing
    modifies d
    ensures !aborted
    ensures d.Faulty(old(d.faults), !err && (d.fs == b || Replaced(b, p, cs, d.fs)) && Clean(d.fs)
        && Messages(kept, d.fs, Fast))
    ensures Typed(d.fs) && (Recover(d.fs) == b || Replaced(b, p, cs, Recover(d.fs)))
  {
    assert Typed(d.fs) && Paired(d.fs) && Families(d.fs) && Clean(Recover(d.fs))
           && (Recover(d.fs) == b || Replaced(b, p, cs, Recover(d.fs))) by {
      CrashRecovery(b, p, cs, d.fs);
    }
    err, aborted, kept := RecoverFast(d, listing);
  }
}
